/** Plane geometry of the measurement pipeline: 2-D points, the numeric library's
    square root and pi, and the Euclidean distance, midpoint and circumference helpers
    that every body measurement is built from. */
module Geometry {

  /** A keypoint or a de-projected coordinate: one row (x, y) of an N x 2 array. */
  datatype Point = Point(x: real, y: real)

  function Add(a: Point, b: Point): Point { Point(a.x + b.x, a.y + b.y) }

  function Sub(a: Point, b: Point): Point { Point(a.x - b.x, a.y - b.y) }

  /** `v ** 2`. */
  function Square(v: real): real { v * v }

  lemma ProductPositive(a: real, b: real, c: real)
    requires 0.0 < a && 0.0 < b && c == a * b
    ensures 0.0 < c
  {
  }

  /** A square is never negative, and it is positive unless its root is zero. */
  lemma SquareSign(v: real)
    ensures 0.0 <= Square(v)
    ensures v != 0.0 ==> 0.0 < Square(v)
  {
    if v < 0.0 {
      ProductPositive(-v, -v, Square(v));
    } else if 0.0 < v {
      ProductPositive(v, v, Square(v));
    }
  }

  /** Two non-negative numbers with the same square are equal. */
  lemma SquareInjective(s: real, r: real)
    requires 0.0 <= s && 0.0 <= r && Square(s) == Square(r)
    ensures s == r
  {
    if s < r {
      ProductPositive(r - s, r + s, Square(r) - Square(s));
    } else if r < s {
      ProductPositive(s - r, s + r, Square(s) - Square(r));
    }
  }

  lemma SquareOfHalf(u: real)
    ensures 4.0 * Square(u / 2.0) == Square(u)
  {
  }

  /** `np.sum((a - b) ** 2)`: the squared Euclidean distance, zero exactly on equal points. */
  function SquaredDistance(a: Point, b: Point): (r: real)
    ensures 0.0 <= r
    ensures a == b ==> r == 0.0
    ensures a != b ==> 0.0 < r
  {
    SquareSign(a.x - b.x);
    SquareSign(a.y - b.y);
    Square(a.x - b.x) + Square(a.y - b.y)
  }

  /** A marker term: the square-root fact of `Numerics.Valid` is used only at arguments a
      proof names through `SqrtSpec`, which keeps the other proofs free of products. */
  ghost predicate RootQuery(v: real) { true }

  /** `np.sqrt` and `np.pi`, which the model receives instead of computing: `sqrt` must
      return the non-negative square root of every non-negative argument and `pi` is some
      positive constant (its exact value never matters to the proofs). */
  datatype Numerics = Numerics(sqrt: real -> real, pi: real) {
    ghost predicate Valid() {
      0.0 < pi &&
      forall v: real {:trigger RootQuery(v)} :: RootQuery(v) && 0.0 <= v ==> 0.0 <= sqrt(v) && Square(sqrt(v)) == v
    }
  }

  /** The square-root fact at one argument. */
  lemma SqrtSpec(m: Numerics, v: real)
    requires m.Valid() && 0.0 <= v
    ensures 0.0 <= m.sqrt(v) && Square(m.sqrt(v)) == v
  {
    assert RootQuery(v);
  }

  /** The non-negative root is unique, so any `r >= 0` with `r * r == v` is `sqrt(v)`. */
  lemma SqrtIs(m: Numerics, v: real, r: real)
    requires m.Valid()
    requires 0.0 <= r && Square(r) == v
    ensures m.sqrt(v) == r
  {
    SquareSign(r);
    SqrtSpec(m, v);
    SquareInjective(m.sqrt(v), r);
  }

  /** `euclidean_distance`: the square root of the squared distance, never negative. */
  function EuclideanDistance(m: Numerics, a: Point, b: Point): (r: real)
    requires m.Valid()
    ensures 0.0 <= r
  {
    SqrtSpec(m, SquaredDistance(a, b));
    m.sqrt(SquaredDistance(a, b))
  }

  /** The distance is the length whose square is the squared distance. */
  lemma DistanceSquare(m: Numerics, a: Point, b: Point)
    requires m.Valid()
    ensures Square(EuclideanDistance(m, a, b)) == SquaredDistance(a, b)
  {
    SqrtSpec(m, SquaredDistance(a, b));
  }

  lemma DistanceSymmetric(m: Numerics, a: Point, b: Point)
    requires m.Valid()
    ensures EuclideanDistance(m, a, b) == EuclideanDistance(m, b, a)
  {
    assert Square(a.x - b.x) == Square(b.x - a.x);
    assert Square(a.y - b.y) == Square(b.y - a.y);
  }

  /** The distance vanishes exactly on identical points. */
  lemma DistanceZero(m: Numerics, a: Point, b: Point)
    requires m.Valid()
    ensures EuclideanDistance(m, a, b) == 0.0 <==> a == b
  {
    if a == b {
      SqrtIs(m, 0.0, 0.0);
    } else {
      DistanceSquare(m, a, b);
      SquareSign(EuclideanDistance(m, a, b));
    }
  }

  /** Shifting both points by the same offset does not change their distance. */
  lemma DistanceTranslate(m: Numerics, a: Point, b: Point, t: Point)
    requires m.Valid()
    ensures EuclideanDistance(m, Add(a, t), Add(b, t)) == EuclideanDistance(m, a, b)
  {
    assert Sub(Add(a, t), Add(b, t)) == Sub(a, b);
    assert SquaredDistance(Add(a, t), Add(b, t)) == SquaredDistance(a, b);
  }

  /** `find_midpoint`: the point halfway between `a` and `b`, equally far from both and
      at half their distance. */
  function FindMidpoint(a: Point, b: Point): (r: Point)
    ensures Add(r, r) == Add(a, b)
    ensures SquaredDistance(a, r) == SquaredDistance(r, b)
    ensures 4.0 * SquaredDistance(r, b) == SquaredDistance(a, b)
  {
    var r := Point((a.x + b.x) / 2.0, (a.y + b.y) / 2.0);
    assert a.x - r.x == r.x - b.x == (a.x - b.x) / 2.0;
    assert a.y - r.y == r.y - b.y == (a.y - b.y) / 2.0;
    SquareOfHalf(a.x - b.x);
    SquareOfHalf(a.y - b.y);
    r
  }

  lemma MidpointSymmetric(a: Point, b: Point)
    ensures FindMidpoint(a, b) == FindMidpoint(b, a)
  {
  }

  /** The radius used by `calculate_circumference` is half the distance of the two points. */
  lemma RadiusIsHalfDistance(m: Numerics, a: Point, b: Point)
    requires m.Valid()
    ensures m.sqrt(SquaredDistance(FindMidpoint(a, b), b)) == EuclideanDistance(m, a, b) / 2.0
  {
    var d := EuclideanDistance(m, a, b);
    DistanceSquare(m, a, b);
    SquareOfHalf(d);
    SqrtIs(m, SquaredDistance(FindMidpoint(a, b), b), d / 2.0);
  }

  /** `calculate_circumference`: `2 * pi * radius` with the radius measured from the
      midpoint to `b`, that is, the perimeter of the circle whose diameter is the segment
      `a`-`b`, which is `pi` times the distance. */
  function Circumference(m: Numerics, a: Point, b: Point): (r: real)
    requires m.Valid()
    ensures r == m.pi * EuclideanDistance(m, a, b)
    ensures 0.0 <= r
  {
    var midpoint := FindMidpoint(a, b);
    var radius := m.sqrt(SquaredDistance(midpoint, b));
    RadiusIsHalfDistance(m, a, b);
    2.0 * m.pi * radius
  }

  lemma CircumferenceSymmetric(m: Numerics, a: Point, b: Point)
    requires m.Valid()
    ensures Circumference(m, a, b) == Circumference(m, b, a)
  {
    DistanceSymmetric(m, a, b);
  }
}
