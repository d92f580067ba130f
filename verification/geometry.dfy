/** Points of the drawing plane, read as complex numbers: `x` is the real part
    and `y` the imaginary part. Exact reals stand in for the floats of the
    program; square roots are avoided by comparing squared magnitudes. */
module Geometry {

  datatype Point = Point(x: real, y: real)

  const Origin: Point := Point(0.0, 0.0)

  function Add(p: Point, q: Point): Point {
    Point(p.x + q.x, p.y + q.y)
  }

  function Sub(p: Point, q: Point): Point {
    Point(p.x - q.x, p.y - q.y)
  }

  /** Multiplies both coordinates by the real factor `k`. */
  function Scale(p: Point, k: real): Point {
    Point(p.x * k, p.y * k)
  }

  /** Scaling by `1 / k` and then by `s` is scaling by `s / k`. */
  lemma ScaleTwice(p: Point, k: real, s: real)
    requires k != 0.0
    ensures Scale(Scale(p, 1.0 / k), s) == Scale(p, s / k)
  {
    assert 1.0 / k * s == s / k;
    assert p.x * (1.0 / k) * s == p.x * (s / k);
    assert p.y * (1.0 / k) * s == p.y * (s / k);
  }

  /** Dividing by `k` and multiplying back gives the point back. */
  lemma ScaleInverse(p: Point, k: real)
    requires k != 0.0
    ensures Scale(Scale(p, 1.0 / k), k) == p
  {
    assert p.x * (1.0 / k) * k == p.x;
    assert p.y * (1.0 / k) * k == p.y;
  }

  /** The energy of a coefficient, |c|^2. Ordering coefficients by energy is
      the same as ordering them by magnitude, since the square root is
      monotone on non-negative reals. */
  function Energy(c: Point): (e: real)
    ensures e >= 0.0
  {
    Square(c.x);
    Square(c.y);
    c.x * c.x + c.y * c.y
  }

  lemma Square(a: real)
    ensures a * a >= 0.0
  {
    if a < 0.0 {
      assert a * a == (-a) * (-a);
    }
  }

  /** Squared Euclidean distance; `Dist(p, q) < Dist(p, r)` exactly when the
      squared distances compare the same way. */
  function DistSq(p: Point, q: Point): (d: real)
    ensures d >= 0.0
    ensures p == q ==> d == 0.0
  {
    Energy(Sub(p, q))
  }

  function Abs(r: real): (a: real)
    ensures a >= 0.0
    ensures a == r || a == -r
  {
    if r < 0.0 then -r else r
  }

  /** Sum of a sequence of points, accumulated left to right. */
  function Sum(ps: seq<Point>): Point
    decreases |ps|
  {
    if |ps| == 0 then Origin else Add(Sum(ps[..|ps| - 1]), ps[|ps| - 1])
  }
}
