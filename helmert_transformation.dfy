/**
 * The Helmert transformation algorithm: it reads one control-point pair per
 * reference line, then estimates a 4-parameter (similarity) transformation
 * by least squares. Both point sets are reduced to their centroids, the
 * auxiliary variables D, a and b are computed from the reduced coordinates,
 * and the fitted destination points give the residuals.
 *
 * Coordinates are exact reals here. The scale sqrt(a² + b²), the rotation
 * atan2(b, a) and the host algorithms that move the layer are not modelled.
 */
module HelmertTransformation {
  import opened Wrappers
  import opened Vectors
  import opened ReferenceLayer
  import opened HelmertAlgebra

  /** The mean of a column of an n×2 array: `np.sum(column) / (array.size / 2)`. */
  function Centroid(col: seq<real>): (c: real)
    requires |col| > 0
    ensures (|col| as real) * c == Sum(col)
  {
    Sum(col) / ((2 * |col|) as real / 2.0)
  }

  /** A column reduced to its centroid (`x_strich`, `X_strich`, ...). */
  function Reduce(col: seq<real>): (r: seq<real>)
    requires |col| > 0
    ensures |r| == |col|
    ensures forall i :: 0 <= i < |r| ==> r[i] == col[i] - Centroid(col)
  {
    Shift(col, Centroid(col))
  }

  /** Start and destination arrays of the same number n > 0 of rows. */
  predicate Paired(cp: ControlPoints)
  {
    && WellShaped(cp.source) && WellShaped(cp.dest)
    && Rows(cp.source) == Rows(cp.dest) > 0
  }

  /** Every start point is the same point. */
  predicate StartPointsCoincide(src: Coordinates)
    requires WellShaped(src)
  {
    forall i, j :: 0 <= i < Rows(src) && 0 <= j < Rows(src) ==> Row(src, i) == Row(src, j)
  }

  /** The auxiliary variable a: the scale times the cosine of the rotation. */
  function CoefficientA(xp: seq<real>, yp: seq<real>, Xp: seq<real>, Yp: seq<real>): (a: real)
    requires |xp| == |yp| == |Xp| == |Yp| && AuxD(xp, yp) != 0.0
    ensures a * AuxD(xp, yp) == Dot(xp, Xp) + Dot(yp, Yp)
  {
    (Dot(xp, Xp) + Dot(yp, Yp)) / AuxD(xp, yp)
  }

  /** The auxiliary variable b: the scale times the sine of the rotation. */
  function CoefficientB(xp: seq<real>, yp: seq<real>, Xp: seq<real>, Yp: seq<real>): (b: real)
    requires |xp| == |yp| == |Xp| == |Yp| && AuxD(xp, yp) != 0.0
    ensures b * AuxD(xp, yp) == Dot(xp, Yp) - Dot(yp, Xp)
  {
    (Dot(xp, Yp) - Dot(yp, Xp)) / AuxD(xp, yp)
  }

  /** The estimated transformation together with what the algorithm reports. */
  datatype Helmert = Helmert(
    startCentroid: Point,     // (xs, ys)
    destCentroid: Point,      // (Xs, Ys)
    translation: Point,       // (dX, dY)
    a: real,
    b: real,
    residualsX: seq<real>,    // XT - X
    residualsY: seq<real>)    // YT - Y

  /**
   * The estimation from the control points. Where every start point is the
   * same, D is zero and a and b are undefined: that is the error here.
   */
  function Estimate(cp: ControlPoints): (r: Result<Helmert, Error>)
    requires Paired(cp)
    ensures r.Err? <==> AuxD(Reduce(cp.source.x), Reduce(cp.source.y)) == 0.0
    ensures r.Err? ==> r.error == DegenerateStartPoints
    ensures r.Ok? ==>
      && r.value.startCentroid == Point(Centroid(cp.source.x), Centroid(cp.source.y))
      && r.value.destCentroid == Point(Centroid(cp.dest.x), Centroid(cp.dest.y))
      && r.value.translation.x == r.value.destCentroid.x - r.value.startCentroid.x
      && r.value.translation.y == r.value.destCentroid.y - r.value.startCentroid.y
      && |r.value.residualsX| == |r.value.residualsY| == Rows(cp.source)
    ensures r.Ok? ==>
      var xp, yp, Xp, Yp := Reduce(cp.source.x), Reduce(cp.source.y), Reduce(cp.dest.x), Reduce(cp.dest.y);
      && r.value.a == CoefficientA(xp, yp, Xp, Yp)
      && r.value.b == CoefficientB(xp, yp, Xp, Yp)
      && r.value.residualsX == Minus(Affine(r.value.destCentroid.x, r.value.a, xp, -r.value.b, yp), cp.dest.x)
      && r.value.residualsY == Minus(Affine(r.value.destCentroid.y, r.value.b, xp, r.value.a, yp), cp.dest.y)
  {
    var xs, ys := Centroid(cp.source.x), Centroid(cp.source.y);
    var Xs, Ys := Centroid(cp.dest.x), Centroid(cp.dest.y);
    var xp, yp := Reduce(cp.source.x), Reduce(cp.source.y);
    var Xp, Yp := Reduce(cp.dest.x), Reduce(cp.dest.y);
    if AuxD(xp, yp) == 0.0 then Err(DegenerateStartPoints)
    else
      var a, b := CoefficientA(xp, yp, Xp, Yp), CoefficientB(xp, yp, Xp, Yp);
      var fittedX, fittedY := Affine(Xs, a, xp, -b, yp), Affine(Ys, b, xp, a, yp);
      Ok(Helmert(Point(xs, ys), Point(Xs, Ys), Point(Xs - xs, Ys - ys), a, b,
                 Minus(fittedX, cp.dest.x), Minus(fittedY, cp.dest.y)))
  }

  /** The centroid of an affine combination of columns is that combination of their centroids. */
  lemma {:induction false} CentroidAffine(c: real, p: real, u: seq<real>, q: real, v: seq<real>)
    requires |u| == |v| > 0
    ensures Centroid(Affine(c, p, u, q, v)) == c + p * Centroid(u) + q * Centroid(v)
  {
    var w := Affine(c, p, u, q, v);
    AffineIsAffineOf(c, p, u, q, v);
    SumAffineOf(w, c, p, u, q, v, 0.0, u);
    MeanOfCombination(|w| as real, c, p, q, Sum(w), Sum(u), Sum(v), Centroid(w), Centroid(u), Centroid(v));
  }

  /** The mean of a combination, from the sums: the algebra behind CentroidAffine. */
  lemma MeanOfCombination(n: real, c: real, p: real, q: real, sw: real, su: real, sv: real, cw: real, cu: real, cv: real)
    requires n > 0.0
    requires n * cw == sw && n * cu == su && n * cv == sv
    requires sw == n * c + p * su + q * sv + 0.0 * su
    ensures cw == c + p * cu + q * cv
  {
    assert n * cw == n * (c + p * cu + q * cv);
    Cancel(n, cw, c + p * cu + q * cv);
  }

  /** The coordinates reduced to their centroid sum to zero. */
  lemma {:induction false} ReducedSumsToZero(col: seq<real>)
    requires |col| > 0
    ensures Sum(Reduce(col)) == 0.0
  {
    SumLinear(Reduce(col), -Centroid(col), 1.0, col, 0.0, col, 0.0, col);
  }

  /** A column whose elements are all one value has that value as its centroid. */
  lemma {:induction false} CentroidOfConstant(col: seq<real>)
    requires |col| > 0
    requires forall i :: 0 <= i < |col| ==> col[i] == col[0]
    ensures Centroid(col) == col[0]
  {
    SumLinear(col, col[0], 0.0, col, 0.0, col, 0.0, col);
    Cancel(|col| as real, Centroid(col), col[0]);
  }

  /** D is never negative, and it is zero exactly when all start points coincide. */
  lemma {:induction false} DegenerateExactlyWhenStartPointsCoincide(cp: ControlPoints)
    requires Paired(cp)
    ensures AuxD(Reduce(cp.source.x), Reduce(cp.source.y)) >= 0.0
    ensures Estimate(cp).Err? <==> StartPointsCoincide(cp.source)
  {
    var src := cp.source;
    var xp, yp := Reduce(src.x), Reduce(src.y);
    AuxDNonNegative(xp, yp);
    if StartPointsCoincide(src) {
      forall i | 0 <= i < Rows(src) ensures src.x[i] == src.x[0] && src.y[i] == src.y[0] {
        assert Row(src, i) == Row(src, 0);
      }
      CentroidOfConstant(src.x);
      CentroidOfConstant(src.y);
    }
    if AuxD(xp, yp) == 0.0 {
      forall i, j | 0 <= i < Rows(src) && 0 <= j < Rows(src) ensures Row(src, i) == Row(src, j) {
        assert xp[i] == 0.0 && xp[j] == 0.0 && yp[i] == 0.0 && yp[j] == 0.0;
      }
    }
  }

  /** Residuals fitted from the observed column's centroid, in terms of the reduced observed column. */
  lemma {:induction false} CentredResiduals(p: real, u: seq<real>, q: real, v: seq<real>, observed: seq<real>)
    requires |u| == |v| == |observed| > 0
    ensures forall i :: 0 <= i < |u| ==>
      Minus(Affine(Centroid(observed), p, u, q, v), observed)[i] == p * u[i] + q * v[i] + -1.0 * Reduce(observed)[i]
  {
  }

  /** The same residuals as one linear combination of the reduced columns. */
  lemma {:induction false} CentredResidualsCombination(p: real, u: seq<real>, q: real, v: seq<real>, observed: seq<real>)
    requires |u| == |v| == |observed| > 0
    ensures Minus(Affine(Centroid(observed), p, u, q, v), observed) == Combination(p, u, q, v, -1.0, Reduce(observed))
  {
    var res := Minus(Affine(Centroid(observed), p, u, q, v), observed);
    var w := Combination(p, u, q, v, -1.0, Reduce(observed));
    CentredResiduals(p, u, q, v, observed);
    CombinationAt(p, u, q, v, -1.0, Reduce(observed));
    forall i | 0 <= i < |res|
      ensures res[i] == w[i]
    {
    }
  }

  /** Residuals against an observed column, fitted from its centroid and two zero-sum columns, sum to zero. */
  lemma {:induction false} CentredResidualsSumToZero(p: real, u: seq<real>, q: real, v: seq<real>, observed: seq<real>)
    requires |u| == |v| == |observed| > 0
    requires Sum(u) == 0.0 && Sum(v) == 0.0
    ensures Sum(Minus(Affine(Centroid(observed), p, u, q, v), observed)) == 0.0
  {
    CentredResidualsCombination(p, u, q, v, observed);
    SumOfCombination(p, u, q, v, -1.0, Reduce(observed));
    ReducedSumsToZero(observed);
  }

  /** The residuals sum to zero, in X and in Y. */
  lemma {:induction false} ResidualsSumToZero(cp: ControlPoints)
    requires Paired(cp) && Estimate(cp).Ok?
    ensures Sum(Estimate(cp).value.residualsX) == 0.0
    ensures Sum(Estimate(cp).value.residualsY) == 0.0
  {
    var e := Estimate(cp).value;
    var xp, yp := Reduce(cp.source.x), Reduce(cp.source.y);
    ReducedSumsToZero(cp.source.x);
    ReducedSumsToZero(cp.source.y);
    CentredResidualsSumToZero(e.a, xp, -e.b, yp, cp.dest.x);
    CentredResidualsSumToZero(e.b, xp, e.a, yp, cp.dest.y);
  }

  /** The normal equations for the residuals of the fit with coefficients a and b. */
  lemma {:induction false} FittedResidualsOrthogonal(xp: seq<real>, yp: seq<real>, X: seq<real>, Y: seq<real>, a: real, b: real)
    requires |xp| == |yp| == |X| == |Y| > 0 && AuxD(xp, yp) != 0.0
    requires a * AuxD(xp, yp) == Dot(xp, Reduce(X)) + Dot(yp, Reduce(Y))
    requires b * AuxD(xp, yp) == Dot(xp, Reduce(Y)) - Dot(yp, Reduce(X))
    ensures
      var rX := Minus(Affine(Centroid(X), a, xp, -b, yp), X);
      var rY := Minus(Affine(Centroid(Y), b, xp, a, yp), Y);
      && Dot(xp, rX) + Dot(yp, rY) == 0.0
      && Dot(xp, rY) - Dot(yp, rX) == 0.0
  {
    CentredResidualsCombination(a, xp, -b, yp, X);
    CentredResidualsCombination(b, xp, a, yp, Y);
    FirstNormalEquation(xp, yp, Reduce(X), Reduce(Y), a, b);
    SecondNormalEquation(xp, yp, Reduce(X), Reduce(Y), a, b);
  }

  /**
   * The normal equations of the least-squares fit: the residuals are
   * orthogonal to the two directions in which a and b move the fitted
   * points, so a and b are a stationary point of the sum of squared
   * residuals.
   */
  lemma {:induction false} NormalEquations(cp: ControlPoints)
    requires Paired(cp) && Estimate(cp).Ok?
    ensures
      var e, xp, yp := Estimate(cp).value, Reduce(cp.source.x), Reduce(cp.source.y);
      && Dot(xp, e.residualsX) + Dot(yp, e.residualsY) == 0.0
      && Dot(xp, e.residualsY) - Dot(yp, e.residualsX) == 0.0
  {
    var e := Estimate(cp).value;
    FittedResidualsOrthogonal(Reduce(cp.source.x), Reduce(cp.source.y), cp.dest.x, cp.dest.y, e.a, e.b);
  }

  /** A column that is an exact similarity of two others is, reduced, that rotation and scale of theirs reduced. */
  lemma {:induction false} ReducedSimilarity(t: real, p: real, u: seq<real>, q: real, v: seq<real>)
    requires |u| == |v| > 0
    ensures Reduce(Affine(t, p, u, q, v)) == Affine(0.0, p, Reduce(u), q, Reduce(v))
  {
    var w := Affine(t, p, u, q, v);
    CentroidAffine(t, p, u, q, v);
    forall i | 0 <= i < |w|
      ensures Reduce(w)[i] == Affine(0.0, p, Reduce(u), q, Reduce(v))[i]
    {
      calc {
        Reduce(w)[i];
        (t + p * u[i] + q * v[i]) - (t + p * Centroid(u) + q * Centroid(v));
        p * (u[i] - Centroid(u)) + q * (v[i] - Centroid(v));
      }
    }
  }

  /** Residuals vanish when the reduced observed column is exactly the fitted combination. */
  lemma {:induction false} ZeroResiduals(p: real, u: seq<real>, q: real, v: seq<real>, observed: seq<real>)
    requires |u| == |v| == |observed| > 0
    requires Reduce(observed) == Affine(0.0, p, u, q, v)
    ensures forall i :: 0 <= i < |u| ==> Minus(Affine(Centroid(observed), p, u, q, v), observed)[i] == 0.0
  {
    CentredResiduals(p, u, q, v, observed);
  }

  /** An exact similarity of the start columns: estimated a and b are its own, and every residual is zero. */
  lemma {:induction false} ExactFit(x: seq<real>, y: seq<real>, tx: real, ty: real, a0: real, b0: real)
    requires |x| == |y| > 0
    requires AuxD(Reduce(x), Reduce(y)) != 0.0
    ensures
      var X, Y := Affine(tx, a0, x, -b0, y), Affine(ty, b0, x, a0, y);
      && CoefficientA(Reduce(x), Reduce(y), Reduce(X), Reduce(Y)) == a0
      && CoefficientB(Reduce(x), Reduce(y), Reduce(X), Reduce(Y)) == b0
      && (forall i :: 0 <= i < |x| ==>
            && Minus(Affine(Centroid(X), a0, Reduce(x), -b0, Reduce(y)), X)[i] == 0.0
            && Minus(Affine(Centroid(Y), b0, Reduce(x), a0, Reduce(y)), Y)[i] == 0.0)
  {
    var X, Y := Affine(tx, a0, x, -b0, y), Affine(ty, b0, x, a0, y);
    ReducedSimilarity(tx, a0, x, -b0, y);
    ReducedSimilarity(ty, b0, x, a0, y);
    ExactCoefficients(Reduce(x), Reduce(y), a0, b0,
                      CoefficientA(Reduce(x), Reduce(y), Reduce(X), Reduce(Y)), CoefficientB(Reduce(x), Reduce(y), Reduce(X), Reduce(Y)));
    ZeroResiduals(a0, Reduce(x), -b0, Reduce(y), X);
    ZeroResiduals(b0, Reduce(x), a0, Reduce(y), Y);
  }

  /** Destination columns given point by point as a similarity of the start columns. */
  lemma {:induction false} SimilarityColumns(x: seq<real>, y: seq<real>, X: seq<real>, Y: seq<real>,
                                             tx: real, ty: real, a0: real, b0: real)
    requires |x| == |y| == |X| == |Y|
    requires forall i :: 0 <= i < |x| ==> X[i] == tx + a0 * x[i] - b0 * y[i] && Y[i] == ty + b0 * x[i] + a0 * y[i]
    ensures X == Affine(tx, a0, x, -b0, y) && Y == Affine(ty, b0, x, a0, y)
  {
  }

  /**
   * When the destination points are an exact rotation, scale and
   * translation of the start points, the estimation recovers a and b and
   * every residual is zero.
   */
  lemma {:induction false} ExactSimilarityRecovered(cp: ControlPoints, tx: real, ty: real, a0: real, b0: real)
    requires Paired(cp)
    requires forall i :: 0 <= i < Rows(cp.source) ==>
      && cp.dest.x[i] == tx + a0 * cp.source.x[i] - b0 * cp.source.y[i]
      && cp.dest.y[i] == ty + b0 * cp.source.x[i] + a0 * cp.source.y[i]
    requires Estimate(cp).Ok?
    ensures Estimate(cp).value.a == a0 && Estimate(cp).value.b == b0
    ensures forall i :: 0 <= i < Rows(cp.source) ==>
      Estimate(cp).value.residualsX[i] == 0.0 && Estimate(cp).value.residualsY[i] == 0.0
  {
    SimilarityColumns(cp.source.x, cp.source.y, cp.dest.x, cp.dest.y, tx, ty, a0, b0);
    ExactFit(cp.source.x, cp.source.y, tx, ty, a0, b0);
  }

  /**
   * The extraction loop: for every reference feature, in order, bind `line`
   * by its geometry type and append its first vertex to the start list and
   * its last vertex to the destination list.
   */
  method ReadControlPoints(features: seq<Feature>) returns (r: Result<ControlPoints, Error>)
    ensures ScanFeatures(features).Ok? ==> r == Ok(ScanFeatures(features).value.points)
    ensures ScanFeatures(features).Err? ==> r == Err(ScanFeatures(features).error)
  {
    var source := Coordinates([], []);
    var dest := Coordinates([], []);
    var line: Option<seq<Point>> := None;
    var i := 0;
    while i < |features|
      invariant 0 <= i <= |features|
      invariant ScanFeatures(features[..i]) == Ok(Scan(ControlPoints(source, dest), line))
    {
      ghost var st := Scan(ControlPoints(source, dest), line);
      ScanOneMore(features, i);
      var g := features[i].geometry;
      if g.LineString? {
        line := Some(g.vertices);
      } else if g.MultiLineString? {
        if |g.parts| == 0 {
          ScanFailsAt(features, i, st, IndexOutOfRange);
          return Err(IndexOutOfRange);
        }
        line := Some(g.parts[0]);
      }
      if line.None? {
        ScanFailsAt(features, i, st, UnboundLine);
        return Err(UnboundLine);
      }
      if |line.value| == 0 {
        ScanFailsAt(features, i, st, IndexOutOfRange);
        return Err(IndexOutOfRange);
      }
      source := AppendRow(source, line.value[0]);
      dest := AppendRow(dest, Last(line.value));
      i := i + 1;
    }
    assert features[..i] == features;
    return Ok(ControlPoints(source, dest));
  }

  /**
   * The algorithm up to the residuals: the checks on its parameters in
   * order, then the extraction, then the estimation. `reference` is the
   * reference layer's features, or None when the parameter does not
   * resolve; `inputFound` says whether the layer to transform resolves.
   */
  method ProcessAlgorithm(reference: Option<seq<Feature>>, inputFound: bool) returns (r: Result<Helmert, Error>)
    ensures reference.None? ==> r == Err(InvalidReferenceSource)
    ensures reference.Some? && |reference.value| < MinControlPoints ==> r == Err(TooFewControlPoints)
    ensures reference.Some? && |reference.value| >= MinControlPoints && !inputFound ==> r == Err(InvalidInputLayer)
    ensures reference.Some? && |reference.value| >= MinControlPoints && inputFound ==>
      var scan := ScanFeatures(reference.value);
      && (scan.Err? ==> r == Err(scan.error))
      && (scan.Ok? ==> Paired(scan.value.points) && r == Estimate(scan.value.points))
  {
    if reference.None? {
      return Err(InvalidReferenceSource);
    }
    var features := reference.value;
    if |features| < MinControlPoints {
      return Err(TooFewControlPoints);
    }
    if !inputFound {
      return Err(InvalidInputLayer);
    }
    var points := ReadControlPoints(features);
    if points.Err? {
      return Err(points.error);
    }
    r := Estimate(points.value);
  }
}
