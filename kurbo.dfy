/**
 * The slice of the kurbo geometry crate that the CoreGraphics backend uses:
 * points, path elements, quadratic and cubic Bézier segments, rectangles and
 * affine transforms. Coordinates are exact reals.
 *
 * kurbo itself is not part of this model. `Raise` is the standard degree
 * elevation formula and is an assumption about what `QuadBez::raise` does;
 * `RaiseExact` proves that this formula traces the same curve.
 */
module Kurbo {

  datatype Point = Point(x: real, y: real)

  /** `Point::default()`, the origin. */
  const Origin: Point := Point(0.0, 0.0)

  /** `p + k * (q - p)`: the point a fraction `k` of the way from `p` to `q`. */
  function Lerp(p: Point, q: Point, k: real): Point
  {
    Point(p.x + k * (q.x - p.x), p.y + k * (q.y - p.y))
  }

  /** `kurbo::PathEl`: one element of a Bézier path. */
  datatype PathEl =
    | MoveTo(p: Point)
    | LineTo(p: Point)
    | QuadTo(p1: Point, p2: Point)
    | CurveTo(p1: Point, p2: Point, p3: Point)
    | ClosePath

  /**
   * A shape as the render context consumes it: the path elements
   * `to_bez_path(1e-3)` produces, and its bounding box.
   */
  datatype Shape = Shape(elements: seq<PathEl>, boundingBox: Rect)

  datatype QuadBez = QuadBez(p0: Point, p1: Point, p2: Point)

  datatype CubicBez = CubicBez(p0: Point, p1: Point, p2: Point, p3: Point)

  /** One coordinate of a quadratic Bézier in Bernstein form at parameter `t`. */
  function Quad1(a: real, b: real, c: real, t: real): real
  {
    (1.0 - t) * (1.0 - t) * a + 2.0 * (1.0 - t) * t * b + t * t * c
  }

  /** One coordinate of a cubic Bézier in Bernstein form at parameter `t`. */
  function Cubic1(a: real, b: real, c: real, d: real, t: real): real
  {
    (1.0 - t) * (1.0 - t) * (1.0 - t) * a + 3.0 * (1.0 - t) * (1.0 - t) * t * b
    + 3.0 * (1.0 - t) * t * t * c + t * t * t * d
  }

  function QuadEval(q: QuadBez, t: real): Point
  {
    Point(Quad1(q.p0.x, q.p1.x, q.p2.x, t), Quad1(q.p0.y, q.p1.y, q.p2.y, t))
  }

  function CubicEval(c: CubicBez, t: real): Point
  {
    Point(Cubic1(c.p0.x, c.p1.x, c.p2.x, c.p3.x, t), Cubic1(c.p0.y, c.p1.y, c.p2.y, c.p3.y, t))
  }

  /**
   * `QuadBez::raise`: the cubic with the same end points whose inner control
   * points lie two thirds of the way from each end point towards the
   * quadratic's control point.
   */
  function Raise(q: QuadBez): (c: CubicBez)
    ensures c.p0 == q.p0 && c.p3 == q.p2
    ensures c.p1 == Lerp(q.p0, q.p1, 2.0 / 3.0) && c.p2 == Lerp(q.p2, q.p1, 2.0 / 3.0)
  {
    CubicBez(q.p0, Lerp(q.p0, q.p1, 2.0 / 3.0), Lerp(q.p2, q.p1, 2.0 / 3.0), q.p2)
  }

  /** Degree elevation for one coordinate: the raised cubic equals the quadratic at `t`. */
  lemma RaiseExact1(a: real, b: real, c: real, t: real)
    ensures Cubic1(a, a + 2.0 / 3.0 * (b - a), c + 2.0 / 3.0 * (b - c), c, t) == Quad1(a, b, c, t)
  {
    var m := 1.0 - t;
    var b1 := a + 2.0 / 3.0 * (b - a);
    var b2 := c + 2.0 / 3.0 * (b - c);
    assert 3.0 * b1 == a + 2.0 * b;
    assert 3.0 * b2 == c + 2.0 * b;
    calc {
      Cubic1(a, b1, b2, c, t);
      m * m * m * a + m * m * t * (3.0 * b1) + m * t * t * (3.0 * b2) + t * t * t * c;
      m * m * m * a + m * m * t * (a + 2.0 * b) + m * t * t * (c + 2.0 * b) + t * t * t * c;
      m * m * a * (m + t) + 2.0 * m * t * b * (m + t) + t * t * c * (m + t);
      { assert m + t == 1.0; }
      m * m * a + 2.0 * m * t * b + t * t * c;
      Quad1(a, b, c, t);
    }
  }

  /** The cubic produced by `Raise` traces exactly the quadratic it came from. */
  lemma RaiseExact(q: QuadBez, t: real)
    ensures CubicEval(Raise(q), t) == QuadEval(q, t)
  {
    RaiseExact1(q.p0.x, q.p1.x, q.p2.x, t);
    RaiseExact1(q.p0.y, q.p1.y, q.p2.y, t);
  }

  datatype Rect = Rect(x0: real, y0: real, x1: real, y1: real)

  /** `kurbo::Affine`: the coefficients `[a, b, c, d, e, f]` of `x' = a x + c y + e`, `y' = b x + d y + f`. */
  datatype Affine = Affine(a: real, b: real, c: real, d: real, e: real, f: real)

  function Apply(t: Affine, p: Point): Point
  {
    Point(t.a * p.x + t.c * p.y + t.e, t.b * p.x + t.d * p.y + t.f)
  }

  /** `Affine::default()`, the identity transform. */
  function DefaultAffine(): (t: Affine)
    ensures forall p :: Apply(t, p) == p
  {
    Affine(1.0, 0.0, 0.0, 1.0, 0.0, 0.0)
  }
}
