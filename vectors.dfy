/**
 * Column vectors of coordinates over exact reals, with the numpy reductions
 * the Helmert estimation uses: `np.sum`, subtraction of a scalar and the
 * element-wise product.
 */
module Vectors {

  /** `np.sum(v)`. */
  function Sum(v: seq<real>): real
  {
    if |v| == 0 then 0.0 else v[0] + Sum(v[1..])
  }

  /** `v - c` for a column `v` and a scalar `c`. */
  function Shift(v: seq<real>, c: real): (r: seq<real>)
    ensures |r| == |v|
    ensures forall i :: 0 <= i < |v| ==> r[i] == v[i] - c
  {
    seq(|v|, i requires 0 <= i < |v| => v[i] - c)
  }

  /** `u * v`, element by element. */
  function Times(u: seq<real>, v: seq<real>): (r: seq<real>)
    requires |u| == |v|
    ensures |r| == |u|
    ensures forall i :: 0 <= i < |u| ==> r[i] == u[i] * v[i]
  {
    seq(|u|, i requires 0 <= i < |u| => u[i] * v[i])
  }

  /** `u - v`, element by element. */
  function Minus(u: seq<real>, v: seq<real>): (r: seq<real>)
    requires |u| == |v|
    ensures |r| == |u|
    ensures forall i :: 0 <= i < |u| ==> r[i] == u[i] - v[i]
  {
    seq(|u|, i requires 0 <= i < |u| => u[i] - v[i])
  }

  /** `c + p * u + q * v` for scalars c, p, q and columns u, v. */
  function Affine(c: real, p: real, u: seq<real>, q: real, v: seq<real>): (r: seq<real>)
    requires |u| == |v|
    ensures |r| == |u|
    ensures forall i :: 0 <= i < |u| ==> r[i] == c + p * u[i] + q * v[i]
  {
    seq(|u|, i requires 0 <= i < |u| => c + p * u[i] + q * v[i])
  }

  /** `p * u + q * v + r * t` for scalars p, q, r and columns u, v, t. */
  function Combination(p: real, u: seq<real>, q: real, v: seq<real>, r: real, t: seq<real>): (w: seq<real>)
    requires |u| == |v| == |t|
    ensures |w| == |u|
  {
    if |u| == 0 then [] else [p * u[0] + q * v[0] + r * t[0]] + Combination(p, u[1..], q, v[1..], r, t[1..])
  }

  /** Each element of a combination is that combination of the elements. */
  lemma {:induction false} CombinationAt(p: real, u: seq<real>, q: real, v: seq<real>, r: real, t: seq<real>)
    requires |u| == |v| == |t|
    ensures forall i :: 0 <= i < |u| ==> Combination(p, u, q, v, r, t)[i] == p * u[i] + q * v[i] + r * t[i]
  {
    if |u| > 0 {
      CombinationAt(p, u[1..], q, v[1..], r, t[1..]);
      var w := Combination(p, u, q, v, r, t);
      forall i | 0 <= i < |u| ensures w[i] == p * u[i] + q * v[i] + r * t[i] {
        if i > 0 {
          assert w[i] == Combination(p, u[1..], q, v[1..], r, t[1..])[i - 1];
        }
      }
    }
  }

  /** `np.sum(u * v)`. */
  function Dot(u: seq<real>, v: seq<real>): real
    requires |u| == |v|
  {
    Sum(Times(u, v))
  }

  /** One step of summing an affine combination: the first term plus the sum of the rest. */
  lemma Regroup(n: real, n1: real, c: real, p: real, q: real, r: real,
                sw: real, w0: real, sw1: real, su: real, u0: real, su1: real,
                sv: real, v0: real, sv1: real, st: real, t0: real, st1: real)
    requires n == n1 + 1.0
    requires sw == w0 + sw1 && su == u0 + su1 && sv == v0 + sv1 && st == t0 + st1
    requires w0 == c + p * u0 + q * v0 + r * t0
    requires sw1 == n1 * c + p * su1 + q * sv1 + r * st1
    ensures sw == n * c + p * su + q * sv + r * st
  {
  }

  /** w[i] == c + p * u[i] + q * v[i] + r * t[i] for every i, element by element from the front. */
  predicate AffineOf(w: seq<real>, c: real, p: real, u: seq<real>, q: real, v: seq<real>, r: real, t: seq<real>)
    requires |w| == |u| == |v| == |t|
  {
    |w| == 0 || (w[0] == c + p * u[0] + q * v[0] + r * t[0] && AffineOf(w[1..], c, p, u[1..], q, v[1..], r, t[1..]))
  }

  /** The element-wise relation, from its statement for every index. */
  lemma {:induction false} AffineOfAll(w: seq<real>, c: real, p: real, u: seq<real>, q: real, v: seq<real>, r: real, t: seq<real>)
    requires |w| == |u| == |v| == |t|
    requires forall i :: 0 <= i < |w| ==> w[i] == c + p * u[i] + q * v[i] + r * t[i]
    ensures AffineOf(w, c, p, u, q, v, r, t)
  {
    if |w| > 0 {
      var w', u', v', t' := w[1..], u[1..], v[1..], t[1..];
      forall i | 0 <= i < |w'|
        ensures w'[i] == c + p * u'[i] + q * v'[i] + r * t'[i]
      {
        assert w'[i] == w[i + 1] && u'[i] == u[i + 1] && v'[i] == v[i + 1] && t'[i] == t[i + 1];
      }
      AffineOfAll(w', c, p, u', q, v', r, t');
    }
  }

  /** `Affine` builds a column in the element-wise relation (with a zero third term). */
  lemma {:induction false} AffineIsAffineOf(c: real, p: real, u: seq<real>, q: real, v: seq<real>)
    requires |u| == |v|
    ensures AffineOf(Affine(c, p, u, q, v), c, p, u, q, v, 0.0, u)
  {
    var w := Affine(c, p, u, q, v);
    forall i | 0 <= i < |w|
      ensures w[i] == c + p * u[i] + q * v[i] + 0.0 * u[i]
    {
    }
    AffineOfAll(w, c, p, u, q, v, 0.0, u);
  }

  /** The sum of a column that is an affine combination of three others, element by element. */
  lemma {:induction false} SumAffineOf(w: seq<real>, c: real, p: real, u: seq<real>, q: real, v: seq<real>, r: real, t: seq<real>)
    requires |w| == |u| == |v| == |t|
    requires AffineOf(w, c, p, u, q, v, r, t)
    ensures Sum(w) == (|w| as real) * c + p * Sum(u) + q * Sum(v) + r * Sum(t)
  {
    if |w| > 0 {
      var w', u', v', t' := w[1..], u[1..], v[1..], t[1..];
      assert Sum(w) == w[0] + Sum(w') && Sum(u) == u[0] + Sum(u');
      assert Sum(v) == v[0] + Sum(v') && Sum(t) == t[0] + Sum(t');
      SumAffineOf(w', c, p, u', q, v', r, t');
      Regroup(|w| as real, |w'| as real, c, p, q, r,
              Sum(w), w[0], Sum(w'), Sum(u), u[0], Sum(u'), Sum(v), v[0], Sum(v'), Sum(t), t[0], Sum(t'));
    }
  }

  /** The sum of a column given element-wise as an affine combination of three others. */
  lemma {:induction false} SumLinear(w: seq<real>, c: real, p: real, u: seq<real>, q: real, v: seq<real>, r: real, t: seq<real>)
    requires |w| == |u| == |v| == |t|
    requires forall i :: 0 <= i < |w| ==> w[i] == c + p * u[i] + q * v[i] + r * t[i]
    ensures Sum(w) == (|w| as real) * c + p * Sum(u) + q * Sum(v) + r * Sum(t)
  {
    AffineOfAll(w, c, p, u, q, v, r, t);
    SumAffineOf(w, c, p, u, q, v, r, t);
  }

  /** One term of a dot product with a combination of three columns, distributed. */
  lemma Distribute(ui: real, wi: real, p: real, vi: real, q: real, ti: real, r: real, si: real,
                   uw: real, uv: real, ut: real, us: real)
    requires wi == p * vi + q * ti + r * si
    requires uw == ui * wi && uv == ui * vi && ut == ui * ti && us == ui * si
    ensures uw == 0.0 + p * uv + q * ut + r * us
  {
  }

  /** The sum of a combination of three columns is that combination of their sums. */
  lemma {:induction false} SumOfCombination(p: real, u: seq<real>, q: real, v: seq<real>, r: real, t: seq<real>)
    requires |u| == |v| == |t|
    ensures Sum(Combination(p, u, q, v, r, t)) == p * Sum(u) + q * Sum(v) + r * Sum(t)
  {
    var w := Combination(p, u, q, v, r, t);
    CombinationAt(p, u, q, v, r, t);
    forall i | 0 <= i < |w|
      ensures w[i] == 0.0 + p * u[i] + q * v[i] + r * t[i]
    {
    }
    AffineOfAll(w, 0.0, p, u, q, v, r, t);
    SumAffineOf(w, 0.0, p, u, q, v, r, t);
  }

  /** The element-wise products with a combination of three columns are that combination of the products. */
  lemma {:induction false} TimesCombination(s: seq<real>, p: real, u: seq<real>, q: real, v: seq<real>, r: real, t: seq<real>)
    requires |s| == |u| == |v| == |t|
    ensures AffineOf(Times(s, Combination(p, u, q, v, r, t)), 0.0, p, Times(s, u), q, Times(s, v), r, Times(s, t))
  {
    var w := Combination(p, u, q, v, r, t);
    var sw, su, sv, st := Times(s, w), Times(s, u), Times(s, v), Times(s, t);
    CombinationAt(p, u, q, v, r, t);
    forall i | 0 <= i < |sw|
      ensures sw[i] == 0.0 + p * su[i] + q * sv[i] + r * st[i]
    {
      Distribute(s[i], w[i], p, u[i], q, v[i], r, t[i], sw[i], su[i], sv[i], st[i]);
    }
    AffineOfAll(sw, 0.0, p, su, q, sv, r, st);
  }

  /** A dot product with a combination of three columns is that combination of the dot products. */
  lemma {:induction false} DotLinear3(s: seq<real>, p: real, u: seq<real>, q: real, v: seq<real>, r: real, t: seq<real>)
    requires |s| == |u| == |v| == |t|
    ensures Dot(s, Combination(p, u, q, v, r, t)) == p * Dot(s, u) + q * Dot(s, v) + r * Dot(s, t)
  {
    var sw, su, sv, st := Times(s, Combination(p, u, q, v, r, t)), Times(s, u), Times(s, v), Times(s, t);
    TimesCombination(s, p, u, q, v, r, t);
    SumAffineOf(sw, 0.0, p, su, q, sv, r, st);
    assert Sum(sw) == p * Sum(su) + q * Sum(sv) + r * Sum(st);
  }

  /** An affine column without offset, as a combination (with a zero third term). */
  lemma {:induction false} AffineAsCombination(p: real, u: seq<real>, q: real, v: seq<real>)
    requires |u| == |v|
    ensures Affine(0.0, p, u, q, v) == Combination(p, u, q, v, 0.0, v)
  {
    var w, w' := Affine(0.0, p, u, q, v), Combination(p, u, q, v, 0.0, v);
    CombinationAt(p, u, q, v, 0.0, v);
    forall i | 0 <= i < |w|
      ensures w[i] == w'[i]
    {
    }
  }

  /** The dot product is symmetric. */
  lemma {:induction false} DotSymmetric(u: seq<real>, v: seq<real>)
    requires |u| == |v|
    ensures Dot(u, v) == Dot(v, u)
  {
    assert Times(u, v) == Times(v, u);
  }

  /** Splits a dot product into its first term and the rest. */
  lemma {:induction false} DotUnfold(u: seq<real>, v: seq<real>)
    requires |u| == |v| > 0
    ensures Dot(u, v) == Times(u, v)[0] + Dot(u[1..], v[1..])
  {
    var uv, rest := Times(u, v), Times(u[1..], v[1..]);
    assert |uv[1..]| == |rest|;
    forall i | 0 <= i < |rest| ensures uv[1..][i] == rest[i] {
      assert uv[1..][i] == uv[i + 1];
    }
    assert uv[1..] == rest;
  }

  lemma ProductPositive(x: real, y: real, s: real)
    requires s == x * y
    requires (x > 0.0 && y > 0.0) || (x < 0.0 && y < 0.0)
    ensures s > 0.0
  {
    if x < 0.0 {
      assert s == (-x) * (-y);
    }
  }

  /** A non-zero factor can be cancelled from both sides of an equation. */
  lemma Cancel(n: real, x: real, y: real)
    requires n != 0.0 && n * x == n * y
    ensures x == y
  {
    if x != y {
      if n > 0.0 && x > y {
        ProductPositive(n, x - y, n * (x - y));
      } else if n > 0.0 {
        ProductPositive(n, y - x, n * (y - x));
      } else if x > y {
        ProductPositive(-n, x - y, -n * (x - y));
      } else {
        ProductPositive(-n, y - x, -n * (y - x));
      }
    }
  }

  /** A square is never negative, and is zero exactly at zero. */
  lemma Square(x: real, s: real)
    requires s == x * x
    ensures s >= 0.0
    ensures s == 0.0 <==> x == 0.0
  {
    if x != 0.0 {
      ProductPositive(x, x, s);
    }
  }

  /** A sum of squares is never negative, and is zero exactly when every element is. */
  lemma {:induction false} SumOfSquares(v: seq<real>)
    ensures Dot(v, v) >= 0.0
    ensures Dot(v, v) == 0.0 <==> forall i :: 0 <= i < |v| ==> v[i] == 0.0
  {
    if |v| > 0 {
      SumOfSquares(v[1..]);
      DotUnfold(v, v);
      Square(v[0], Times(v, v)[0]);
      forall i | 0 <= i < |v| ensures v[i] == 0.0 <==> (i == 0 && v[0] == 0.0) || (i > 0 && v[1..][i - 1] == 0.0) {
        if i > 0 { assert v[i] == v[1..][i - 1]; }
      }
    }
  }
}
