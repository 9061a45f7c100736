/**
 Points in space and the quadratic Bezier curve through them.

 Coordinates are exact reals: the curve identities proved here hold over the
 reals, not under floating-point rounding.
 */
module Geometry {

  /** A point (x, y, z); `At(i)` reads it as the three-component tuple `p[i]`. */
  datatype Point3 = Point3(x: real, y: real, z: real) {

    function At(i: nat): real
      requires i < 3
    {
      if i == 0 then x else if i == 1 then y else z
    }
  }

  /** Sum over the three axes of the squared coordinate differences. */
  function SquaredDistance(a: Point3, b: Point3): (d: real)
    ensures d >= 0.0
  {
    SquareNonNegative(b.x - a.x);
    SquareNonNegative(b.y - a.y);
    SquareNonNegative(b.z - a.z);
    Square(b.x - a.x) + Square(b.y - a.y) + Square(b.z - a.z)
  }

  function Square(u: real): real { u * u }

  /** Two points are at squared distance zero exactly when they coincide. */
  lemma ZeroDistanceIffSamePoint(a: Point3, b: Point3)
    ensures SquaredDistance(a, b) == 0.0 <==> a == b
  {
    SquareNonNegative(b.x - a.x);
    SquareNonNegative(b.y - a.y);
    SquareNonNegative(b.z - a.z);
    if a != b {
      assert Square(b.x - a.x) > 0.0 || Square(b.y - a.y) > 0.0 || Square(b.z - a.z) > 0.0;
    }
  }

  /** A square is never negative, and positive for a non-zero real. */
  lemma SquareNonNegative(u: real)
    ensures Square(u) >= 0.0
    ensures u != 0.0 ==> Square(u) > 0.0
  {
    if u > 0.0 {
      calc { Square(u); u * u; > 0.0; }
    } else if u < 0.0 {
      calc { Square(u); u * u; (-u) * (-u); > 0.0; }
    } else {
      calc { Square(u); 0.0 * 0.0; 0.0; }
    }
  }

  /** The three quadratic Bernstein weights at parameter `t`. */
  function W0(t: real): real { (1.0 - t) * (1.0 - t) }
  function W1(t: real): real { 2.0 * (1.0 - t) * t }
  function W2(t: real): real { t * t }

  /** One axis of the curve: the Bernstein combination of three coordinates. */
  function Bernstein(t: real, a: real, b: real, c: real): real {
    W0(t) * a + W1(t) * b + W2(t) * c
  }

  /**
   The quadratic Bezier point at `t` with end points `p0`, `p2` and control
   point `p1`, evaluated on each axis separately. Parameters outside [0, 1]
   are not rejected; they extrapolate the same polynomial.
   */
  function Bezier(t: real, p0: Point3, p1: Point3, p2: Point3): (r: Point3)
    ensures t == 0.0 ==> r == p0
    ensures t == 1.0 ==> r == p2
    ensures p0 == p1 == p2 ==> r == p0
  {
    WeightsSumToOne(t);
    Point3(Bernstein(t, p0.x, p1.x, p2.x),
           Bernstein(t, p0.y, p1.y, p2.y),
           Bernstein(t, p0.z, p1.z, p2.z))
  }

  /** The three weights always add up to one, for every real `t`. */
  lemma WeightsSumToOne(t: real)
    ensures W0(t) + W1(t) + W2(t) == 1.0
  {
    calc {
      W0(t) + W1(t) + W2(t);
      (1.0 - t) * (1.0 - t) + 2.0 * (1.0 - t) * t + t * t;
      ((1.0 - t) + t) * ((1.0 - t) + t);
    }
  }

  /** Axis `i` of the curve point is the Bernstein combination of axis `i` alone. */
  lemma BezierAxis(t: real, p0: Point3, p1: Point3, p2: Point3, i: nat)
    requires i < 3
    ensures Bezier(t, p0, p1, p2).At(i) == Bernstein(t, p0.At(i), p1.At(i), p2.At(i))
  {
  }

  /**
   Changing any other axis of any of the three input points leaves axis `i`
   of the curve point unchanged.
   */
  lemma AxisIndependence(t: real, p0: Point3, p1: Point3, p2: Point3,
                         q0: Point3, q1: Point3, q2: Point3, i: nat)
    requires i < 3
    requires p0.At(i) == q0.At(i) && p1.At(i) == q1.At(i) && p2.At(i) == q2.At(i)
    ensures Bezier(t, p0, p1, p2).At(i) == Bezier(t, q0, q1, q2).At(i)
  {
    BezierAxis(t, p0, p1, p2, i);
    BezierAxis(t, q0, q1, q2, i);
  }

  /** Linear interpolation from `p` (at 0) to `q` (at 1). */
  function Lerp(p: Point3, q: Point3, t: real): (r: Point3)
    ensures t == 0.0 ==> r == p
    ensures t == 1.0 ==> r == q
  {
    Point3(Lerp1(p.x, q.x, t), Lerp1(p.y, q.y, t), Lerp1(p.z, q.z, t))
  }

  function Lerp1(a: real, b: real, t: real): real { a + t * (b - a) }

  lemma DeCasteljauAxis(t: real, a: real, b: real, c: real)
    ensures Bernstein(t, a, b, c) == Lerp1(Lerp1(a, b, t), Lerp1(b, c, t), t)
  {
    calc {
      (a + t * (b - a)) + t * ((b + t * (c - b)) - (a + t * (b - a)));
      a + 2.0 * t * (b - a) + t * t * (c - 2.0 * b + a);
      (1.0 - 2.0 * t + t * t) * a + (2.0 * t - 2.0 * t * t) * b + t * t * c;
      { assert (1.0 - t) * (1.0 - t) == 1.0 - 2.0 * t + t * t;
        assert 2.0 * (1.0 - t) * t == 2.0 * t - 2.0 * t * t; }
      Bernstein(t, a, b, c);
    }
  }

  /**
   De Casteljau's construction: interpolating between the two control legs
   gives the same point as the Bernstein form, for every `t`.
   */
  lemma DeCasteljau(t: real, p0: Point3, p1: Point3, p2: Point3)
    ensures Bezier(t, p0, p1, p2) == Lerp(Lerp(p0, p1, t), Lerp(p1, p2, t), t)
  {
    DeCasteljauAxis(t, p0.x, p1.x, p2.x);
    DeCasteljauAxis(t, p0.y, p1.y, p2.y);
    DeCasteljauAxis(t, p0.z, p1.z, p2.z);
  }
}
