/** Plane geometry of ex02/geometry.py over exact reals: points used as
    vectors, lines through a point along a unit direction, and the helpers
    that place the centre of a `CircularArc`. */
module Geometry {
  import opened Maths
  import opened Failures

  /** A point of the plane, also used as the vector from the origin to it. */
  datatype Point = Point(x: real, y: real) {

    /** `Point.new`: the point of an (x, y) pair. */
    static function New(xy: (real, real)): Point {
      Point(xy.0, xy.1)
    }

    /** The vector turned a quarter turn counter-clockwise. */
    function Normal(): Point {
      Point(-y, x)
    }

    /** Both coordinates divided by `d`, or by the Euclidean norm when `d`
        is zero; a zero divisor raises `ZeroDivisionError`. */
    function Normalize(d: real, sqrt: real -> real): (r: Result<Point>)
      requires IsSqrt(sqrt)
      ensures if d == 0.0 && this == Origin then r == Err(ZeroDivisionError)
              else r.Ok? && r.value.Mul(if d == 0.0 then Norm(this, sqrt) else d) == this
                   && (d == 0.0 ==> IsUnit(r.value))
    {
      var n := if d == 0.0 then Norm(this, sqrt) else d;
      NormFacts(this, sqrt);
      if n == 0.0 then
        Err(ZeroDivisionError)
      else
        MulAfterDivision(this, n);
        var r := Point(x / n, y / n);
        if d == 0.0 then
          UnitAfterDivision(this, n);
          Ok(r)
        else
          Ok(r)
    }

    function ScalarProduct(other: Point): real {
      x * other.x + y * other.y
    }

    /** `math.isclose` of the scalar product with zero. */
    predicate IsOrthogonal(other: Point) {
      IsClose(ScalarProduct(other), 0.0)
    }

    predicate IsCollinear(other: Point) {
      IsOrthogonal(other.Normal())
    }

    function Add(other: Point): Point {
      Point(x + other.x, y + other.y)
    }

    function Sub(other: Point): Point {
      Point(x - other.x, y - other.y)
    }

    function Mul(factor: real): Point {
      Point(x * factor, y * factor)
    }

    /** Euclidean distance between `a` and `b`: the non-negative square
        root of the squared norm of their difference. */
    static function Distance(a: Point, b: Point, sqrt: real -> real): (r: real)
      requires IsSqrt(sqrt)
      ensures 0.0 <= r && Square(r) == NormSq(a.Sub(b))
    {
      var dx := a.x - b.x;
      var dy := a.y - b.y;
      NormFacts(Point(dx, dy), sqrt);
      Norm(Point(dx, dy), sqrt)
    }
  }

  const Origin: Point := Point(0.0, 0.0)

  /** Squared Euclidean norm. */
  function NormSq(p: Point): real {
    Square(p.x) + Square(p.y)
  }

  /** Euclidean norm, through the supplied square root. */
  function Norm(p: Point, sqrt: real -> real): real {
    sqrt(NormSq(p))
  }

  predicate IsUnit(p: Point) {
    NormSq(p) == 1.0
  }

  /** The signed area spanned by two vectors (their 2D cross product). */
  function Cross(a: Point, b: Point): real {
    a.x * b.y - a.y * b.x
  }

  /** The point halfway between `a` and `b`. */
  function Midpoint(a: Point, b: Point): Point {
    Point((b.x + a.x) / 2.0, (b.y + a.y) / 2.0)
  }

  /** The cosine of the angle between two vectors; 0 when either is zero. */
  function Cosine(a: Point, b: Point, sqrt: real -> real): real {
    var n := Norm(a, sqrt) * Norm(b, sqrt);
    if n == 0.0 then 0.0 else a.ScalarProduct(b) / n
  }

  /** Directions that `Line.intersection` treats as parallel once they are
      normalised: their absolute cosine is within `RelTol` of 1. */
  predicate NearlyParallel(a: Point, b: Point, sqrt: real -> real) {
    IsClose(Fabs(Cosine(a, b, sqrt)), 1.0)
  }

  /** A line through `point` along `vector`; lines built by `Create` carry a
      unit `vector`. */
  datatype Line = Line(point: Point, vector: Point) {

    /** `Line(point, vector)`: the direction is normalised, so a zero
        direction raises `ZeroDivisionError`. */
    static function Create(point: Point, vector: Point, sqrt: real -> real): (r: Result<Line>)
      requires IsSqrt(sqrt)
      ensures r.Err? <==> vector == Origin
      ensures r.Err? ==> r.error == ZeroDivisionError
      ensures r.Ok? ==> r.value.point == point && IsUnit(r.value.vector)
      ensures r.Ok? ==> r.value.vector.Mul(Norm(vector, sqrt)) == vector
    {
      match vector.Normalize(0.0, sqrt)
      case Err(e) => Err(e)
      case Ok(v) => Ok(Line(point, v))
    }

    /** The point reached from `point` after `k` steps of `vector`. */
    function At(k: real): Point {
      point.Add(vector.Mul(k))
    }

    predicate Contains(p: Point) {
      var a := point;
      var b := p;
      var vab := Point(a.x - b.x, a.y - b.y);
      vab.IsCollinear(vector)
    }

    /** The point where this line meets `line`, from the closed-form
        solution that assumes unit directions; nearly parallel lines raise
        `ValueError`. */
    function Intersection(line: Line): (r: Result<Point>)
      ensures r.Err? <==> IsClose(Fabs(line.vector.ScalarProduct(vector)), 1.0)
      ensures r.Err? ==> r.error == ValueError
    {
      var v0 := vector;
      var p0 := point;
      var v1 := line.vector;
      var p1 := line.point;
      var v1V0 := v1.ScalarProduct(v0);
      var dp := p1.Sub(p0);
      var dpV0 := dp.ScalarProduct(v0);
      var dpV1 := dp.ScalarProduct(v1);
      if IsClose(Fabs(v1V0), 1.0) then
        Err(ValueError)
      else
        SquareIsOne(v1V0);
        Ok(v0.Mul(Coef0(dpV0, dpV1, v1V0)).Add(p0))
    }
  }

  /** How far `Line.intersection` steps along the first line's direction,
      from the offset's components along both directions and the cosine
      `v1V0` between them. */
  function Coef0(dpV0: real, dpV1: real, v1V0: real): real
    requires 1.0 - v1V0 * v1V0 != 0.0
  {
    (dpV0 - dpV1 * v1V0) / (1.0 - v1V0 * v1V0)
  }

  /** `CircularArc.compute_intersection_with_each_tangent`: the meeting
      point of the lines through `p0` and `p1` perpendicular to their
      tangents. */
  function IntersectionWithEachTangent(p0: Point, p1: Point, tangent0: Point, tangent1: Point,
                                       sqrt: real -> real): (r: Result<Point>)
    requires IsSqrt(sqrt)
    ensures r == Err(ZeroDivisionError) <==> tangent0 == Origin || tangent1 == Origin
    ensures r.Ok? ==> r.value.Sub(p0).ScalarProduct(tangent0) == 0.0
    ensures r.Ok? ==> r.value.Sub(p1).ScalarProduct(tangent1) == 0.0
    ensures tangent0 != Origin && tangent1 != Origin ==>
      (r == Err(ValueError) <==> NearlyParallel(tangent0, tangent1, sqrt))
    ensures tangent0 != Origin && tangent1 != Origin && Cross(tangent0, tangent1) == 0.0 ==>
      r == Err(ValueError)
  {
    var radial0 := tangent0.Normal();
    var radial1 := tangent1.Normal();
    NormalOfZero(tangent0);
    NormalOfZero(tangent1);
    var line0 := Line.Create(p0, radial0, sqrt);
    if line0.Err? then Err(line0.error) else
    var line1 := Line.Create(p1, radial1, sqrt);
    if line1.Err? then Err(line1.error) else
    RadialLinesMeet(p0, p1, tangent0, tangent1, line0.value, line1.value, sqrt);
    line0.value.Intersection(line1.value)
  }

  /** `CircularArc.compute_center_with_each_tangent`: the meeting point of
      the radii at `p0` and `p1`, or their midpoint when those radii are
      parallel. */
  function CenterWithEachTangent(p0: Point, p1: Point, tangent0: Point, tangent1: Point,
                                 sqrt: real -> real): (r: Result<Point>)
    requires IsSqrt(sqrt)
    ensures r.Err? <==> tangent0 == Origin || tangent1 == Origin
    ensures r.Err? ==> r.error == ZeroDivisionError
    ensures tangent0 != Origin && tangent1 != Origin && !NearlyParallel(tangent0, tangent1, sqrt) ==>
      && r.Ok?
      && r.value.Sub(p0).ScalarProduct(tangent0) == 0.0
      && r.value.Sub(p1).ScalarProduct(tangent1) == 0.0
    ensures tangent0 != Origin && tangent1 != Origin && NearlyParallel(tangent0, tangent1, sqrt) ==>
      r == Ok(Midpoint(p0, p1))
    ensures tangent0 != Origin && tangent1 != Origin && Cross(tangent0, tangent1) == 0.0 ==>
      r == Ok(Midpoint(p0, p1))
  {
    match IntersectionWithEachTangent(p0, p1, tangent0, tangent1, sqrt)
    case Ok(center) => Ok(center)
    case Err(ValueError) => Ok(Midpoint(p0, p1))
    case Err(ZeroDivisionError) => Err(ZeroDivisionError)
  }

  /** `CircularArc.compute_center_with_tangent`: the meeting point of the
      radius at `start` and the perpendicular bisector of the chord, or the
      chord's midpoint when those are parallel. */
  function CenterWithTangent(start: Point, end: Point, tangent: Point, sqrt: real -> real): (r: Result<Point>)
    requires IsSqrt(sqrt)
    ensures r.Err? <==> tangent == Origin || start == end
    ensures r.Err? ==> r.error == ZeroDivisionError
    ensures r.Ok? ==> NormSq(r.value.Sub(start)) == NormSq(r.value.Sub(end))
    ensures tangent != Origin && start != end && !NearlyParallel(tangent, end.Sub(start), sqrt) ==>
      && r.Ok?
      && r.value.Sub(start).ScalarProduct(tangent) == 0.0
      && r.value.Sub(Midpoint(start, end)).ScalarProduct(end.Sub(start)) == 0.0
    ensures tangent != Origin && start != end && NearlyParallel(tangent, end.Sub(start), sqrt) ==>
      r == Ok(Midpoint(start, end))
    ensures tangent != Origin && start != end && Cross(tangent, end.Sub(start)) == 0.0 ==>
      r == Ok(Midpoint(start, end))
  {
    var chord := end.Sub(start);
    var c := Midpoint(start, end);
    assert chord == Origin <==> start == end;
    match IntersectionWithEachTangent(start, c, tangent, chord, sqrt)
    case Ok(center) =>
      BisectorEquidistant(start, end, center);
      Ok(center)
    case Err(ValueError) =>
      MidpointEquidistant(start, end);
      Ok(c)
    case Err(ZeroDivisionError) => Err(ZeroDivisionError)
  }

  // ---------------------------------------------------------------------
  // Properties of points

  /** `Point.new` and reading back the coordinates are inverse. */
  lemma NewRoundTrip(p: Point, xy: (real, real))
    ensures Point.New((p.x, p.y)) == p
    ensures (Point.New(xy).x, Point.New(xy).y) == xy
  {
  }

  /** Addition and subtraction work coordinate by coordinate, so each
      undoes the other. */
  lemma AddSubInverse(p: Point, q: Point)
    ensures p.Add(q).Sub(q) == p && p.Sub(q).Add(q) == p
    ensures p.Add(q) == q.Add(p)
  {
  }

  /** Scaling by `k` then by `l` scales by `k * l`; scaling by 1 changes nothing. */
  lemma MulComposes(p: Point, k: real, l: real)
    ensures p.Mul(k).Mul(l) == p.Mul(k * l)
    ensures p.Mul(1.0) == p
  {
  }

  /** The normal is a quarter turn: orthogonal to the vector, of the same
      length, and twice applied it reverses the vector. */
  lemma NormalIsQuarterTurn(p: Point)
    ensures p.IsOrthogonal(p.Normal()) && p.Normal().IsOrthogonal(p)
    ensures NormSq(p.Normal()) == NormSq(p)
    ensures p.Normal().Normal() == p.Mul(-1.0)
  {
    IsCloseToZero(p.ScalarProduct(p.Normal()));
    IsCloseToZero(p.Normal().ScalarProduct(p));
  }

  lemma ScalarProductSymmetric(a: Point, b: Point)
    ensures a.ScalarProduct(b) == b.ScalarProduct(a)
  {
  }

  /** `is_orthogonal` is an exact test: `math.isclose` against zero with no
      absolute tolerance accepts only zero. */
  lemma OrthogonalIffZeroProduct(a: Point, b: Point)
    ensures a.IsOrthogonal(b) <==> a.ScalarProduct(b) == 0.0
    ensures a.IsOrthogonal(b) <==> b.IsOrthogonal(a)
  {
    IsCloseToZero(a.ScalarProduct(b));
    IsCloseToZero(b.ScalarProduct(a));
  }

  /** `is_collinear` holds exactly when the cross product vanishes. */
  lemma CollinearIffCross(a: Point, b: Point)
    ensures a.IsCollinear(b) <==> Cross(a, b) == 0.0
  {
    assert a.ScalarProduct(b.Normal()) == -Cross(a, b);
    IsCloseToZero(a.ScalarProduct(b.Normal()));
  }

  lemma CollinearSymmetric(a: Point, b: Point)
    ensures a.IsCollinear(b) <==> b.IsCollinear(a)
  {
    CollinearIffCross(a, b);
    CollinearIffCross(b, a);
  }

  /** A vector is collinear with each of its multiples, and with itself. */
  lemma CollinearWithMultiple(p: Point, k: real)
    ensures p.IsCollinear(p.Mul(k)) && p.Mul(k).IsCollinear(p)
    ensures p.IsCollinear(p)
  {
    CollinearIffCross(p, p.Mul(k));
    CollinearIffCross(p.Mul(k), p);
    CollinearIffCross(p, p);
  }

  /** Normalising a non-zero vector with the default divisor succeeds and
      gives a unit vector pointing the same way. */
  lemma NormalizeKeepsDirection(p: Point, sqrt: real -> real)
    requires IsSqrt(sqrt) && p != Origin
    ensures p.Normalize(0.0, sqrt).Ok?
    ensures IsUnit(p.Normalize(0.0, sqrt).value)
    ensures p.Normalize(0.0, sqrt).value.IsCollinear(p)
    ensures p.Normalize(0.0, sqrt).value.ScalarProduct(p) > 0.0
  {
    var u := p.Normalize(0.0, sqrt).value;
    var n := Norm(p, sqrt);
    NormFacts(p, sqrt);
    assert u.Mul(n) == p;
    CollinearWithMultiple(u, n);
    assert u.ScalarProduct(p) == NormSq(u) * n;
    assert u.ScalarProduct(p) == n;
  }

  /** Normalising the zero vector with the default divisor divides by zero. */
  lemma NormalizeZeroFails(sqrt: real -> real)
    requires IsSqrt(sqrt)
    ensures Origin.Normalize(0.0, sqrt) == Err(ZeroDivisionError)
  {
  }

  /** Two points are at distance zero exactly when they coincide. */
  lemma DistanceZeroIffSame(a: Point, b: Point, sqrt: real -> real)
    requires IsSqrt(sqrt)
    ensures Point.Distance(a, b, sqrt) == 0.0 <==> a == b
  {
    NormFacts(a.Sub(b), sqrt);
    SubZero(a, b);
  }

  /** Distance does not depend on the order of its arguments. */
  lemma DistanceSymmetric(a: Point, b: Point, sqrt: real -> real)
    requires IsSqrt(sqrt)
    ensures Point.Distance(a, b, sqrt) == Point.Distance(b, a, sqrt)
  {
    var p, q := Point(a.x - b.x, a.y - b.y), Point(b.x - a.x, b.y - a.y);
    assert NormSq(p) == NormSq(q) by {
      assert Square(p.x) == Square(q.x);
      assert Square(p.y) == Square(q.y);
    }
  }

  // ---------------------------------------------------------------------
  // Properties of lines

  /** A line contains its own point and every point reached along its
      direction. */
  lemma LineContainsItsPoints(l: Line, k: real)
    ensures l.Contains(l.point)
    ensures l.Contains(l.At(k))
  {
    CollinearWithMultiple(l.vector, 0.0);
    assert Point(l.point.x - l.At(k).x, l.point.y - l.At(k).y) == l.vector.Mul(-k);
    CollinearWithMultiple(l.vector, -k);
    CollinearSymmetric(l.vector, l.vector.Mul(-k));
    CollinearIffCross(Origin, l.vector);
  }

  /** On a line with a non-zero direction, `contains` holds exactly for the
      points reached along that direction. */
  lemma ContainsIffOnLine(l: Line, p: Point)
    requires l.vector != Origin
    ensures l.Contains(p) <==> exists k: real :: p == l.At(k)
  {
    if l.Contains(p) {
      var d := p.Sub(l.point);
      var v := l.vector;
      CollinearIffCross(Point(l.point.x - p.x, l.point.y - p.y), v);
      assert Cross(d, v) == 0.0;
      SumOfSquaresZero(v.x, v.y);
      var k := d.ScalarProduct(v) / NormSq(v);
      AlongDirection(d, v, k);
      assert p == l.At(k);
    }
    forall k: real
      ensures p == l.At(k) ==> l.Contains(p)
    {
      LineContainsItsPoints(l, k);
    }
  }

  /** A line built from `point` and a non-zero `vector` contains `p` exactly
      when `p - point` is collinear with the direction as given, before
      normalisation. */
  lemma CreateContains(point: Point, vector: Point, p: Point, sqrt: real -> real)
    requires IsSqrt(sqrt) && vector != Origin
    ensures Line.Create(point, vector, sqrt).Ok?
    ensures Line.Create(point, vector, sqrt).value.Contains(p) <==> Cross(p.Sub(point), vector) == 0.0
  {
    var u := Line.Create(point, vector, sqrt).value.vector;
    var n := Norm(vector, sqrt);
    NormFacts(vector, sqrt);
    var a := Point(point.x - p.x, point.y - p.y);
    CollinearIffCross(a, u);
    assert Cross(a, vector) == Cross(a, u) * n;
    assert Cross(p.Sub(point), vector) == -Cross(a, vector);
    if Cross(a, vector) == 0.0 {
      ProductZero(Cross(a, u), n);
    }
  }

  /** Lines built from collinear non-zero directions are parallel:
      `intersection` raises `ValueError`. */
  lemma ParallelLinesFail(p0: Point, d0: Point, p1: Point, d1: Point, sqrt: real -> real)
    requires IsSqrt(sqrt) && d0 != Origin && d1 != Origin && Cross(d0, d1) == 0.0
    ensures Line.Create(p0, d0, sqrt).Ok? && Line.Create(p1, d1, sqrt).Ok?
    ensures Line.Create(p0, d0, sqrt).value.Intersection(Line.Create(p1, d1, sqrt).value) == Err(ValueError)
  {
    var l0 := Line.Create(p0, d0, sqrt).value;
    var l1 := Line.Create(p1, d1, sqrt).value;
    ParallelUnitLines(l0, l1, d0, d1, sqrt);
  }

  /** For unit directions, a successful `intersection` returns the one
      point both lines contain. */
  lemma IntersectionIsTheCommonPoint(l0: Line, l1: Line, q: Point)
    requires IsUnit(l0.vector) && IsUnit(l1.vector)
    requires l0.Intersection(l1).Ok?
    ensures l0.Contains(l0.Intersection(l1).value) && l1.Contains(l0.Intersection(l1).value)
    ensures l0.Contains(q) && l1.Contains(q) <==> q == l0.Intersection(l1).value
  {
    var r := l0.Intersection(l1).value;
    IntersectionOnBothLines(l0, l1);
    if l0.Contains(q) && l1.Contains(q) {
      var v0, v1 := l0.vector, l1.vector;
      var p0, p1 := l0.point, l1.point;
      CollinearIffCross(Point(p0.x - q.x, p0.y - q.y), v0);
      CollinearIffCross(Point(p0.x - r.x, p0.y - r.y), v0);
      CollinearIffCross(Point(p1.x - q.x, p1.y - q.y), v1);
      CollinearIffCross(Point(p1.x - r.x, p1.y - r.y), v1);
      var d := r.Sub(q);
      assert Cross(d, v0) == Cross(Point(p0.x - q.x, p0.y - q.y), v0) - Cross(Point(p0.x - r.x, p0.y - r.y), v0);
      assert Cross(d, v1) == Cross(Point(p1.x - q.x, p1.y - q.y), v1) - Cross(Point(p1.x - r.x, p1.y - r.y), v1);
      NotParallel(v0, v1);
      CrossZeroWithBoth(d, v0, v1);
    }
  }

  /** The closed form of `intersection` needs the unit directions that the
      constructor stores: through the origin along `(k, 0)` with `k * k != 1`,
      and through `(1, 0)` along `(0, 1)`, the lines meet at `(1, 0)`, yet
      the formula gives `(k * k, 0)`, which the second line does not contain. */
  lemma NonUnitDirectionMisses(k: real)
    requires k * k != 1.0
    ensures Line(Origin, Point(k, 0.0)).Contains(Point(1.0, 0.0))
    ensures Line(Point(1.0, 0.0), Point(0.0, 1.0)).Contains(Point(1.0, 0.0))
    ensures Line(Origin, Point(k, 0.0)).Intersection(Line(Point(1.0, 0.0), Point(0.0, 1.0)))
         == Ok(Point(k * k, 0.0))
    ensures !Line(Point(1.0, 0.0), Point(0.0, 1.0)).Contains(Point(k * k, 0.0))
  {
    var l0, l1 := Line(Origin, Point(k, 0.0)), Line(Point(1.0, 0.0), Point(0.0, 1.0));
    OnLineAt(l0, Point(1.0, 0.0), Point(-1.0, 0.0));
    OnLineAt(l1, Point(1.0, 0.0), Origin);
    OnLineAt(l1, Point(k * k, 0.0), Point(1.0 - k * k, 0.0));
    AlongXThenY(l0, l1, k);
  }

  /** `contains` reduced to a cross product with the offset `d`. */
  lemma OnLineAt(l: Line, p: Point, d: Point)
    requires d == Point(l.point.x - p.x, l.point.y - p.y)
    ensures l.Contains(p) <==> Cross(d, l.vector) == 0.0
  {
    CollinearIffCross(d, l.vector);
  }

  /** For orthogonal directions the closed form steps from the first
      line's point by the offset's component along its direction. */
  lemma OrthogonalIntersection(l0: Line, l1: Line)
    requires l1.vector.ScalarProduct(l0.vector) == 0.0
    ensures l0.Intersection(l1)
         == Ok(l0.vector.Mul(l1.point.Sub(l0.point).ScalarProduct(l0.vector)).Add(l0.point))
  {
    IsCloseToOne(0.0);
    var dp := l1.point.Sub(l0.point);
    assert Coef0(dp.ScalarProduct(l0.vector), dp.ScalarProduct(l1.vector), 0.0) == dp.ScalarProduct(l0.vector);
  }

  /** The closed form for the line along `(k, 0)` through the origin and
      the line along `(0, 1)` through `(1, 0)`. */
  lemma AlongXThenY(l0: Line, l1: Line, k: real)
    requires l0.point.x == 0.0 && l0.point.y == 0.0 && l0.vector.x == k && l0.vector.y == 0.0
    requires l1.point.x == 1.0 && l1.point.y == 0.0 && l1.vector.x == 0.0 && l1.vector.y == 1.0
    ensures l0.Intersection(l1).Ok?
    ensures l0.Intersection(l1).value.x == k * k && l0.Intersection(l1).value.y == 0.0
  {
    OrthogonalIntersection(l0, l1);
  }

  /** With the direction `(2, 0)`, the closed form gives `(4, 0)`, off the
      second line. */
  lemma ExampleNonUnitDirectionMisses()
    ensures Line(Origin, Point(2.0, 0.0)).Intersection(Line(Point(1.0, 0.0), Point(0.0, 1.0)))
         == Ok(Point(4.0, 0.0))
    ensures !Line(Point(1.0, 0.0), Point(0.0, 1.0)).Contains(Point(4.0, 0.0))
  {
    NonUnitDirectionMisses(2.0);
  }

  /** Directions whose lines `intersection` accepts are not collinear. */
  lemma NotParallel(v0: Point, v1: Point)
    requires IsUnit(v0) && IsUnit(v1)
    requires !IsClose(Fabs(v1.ScalarProduct(v0)), 1.0)
    ensures Cross(v0, v1) != 0.0
  {
    SquareIsOne(v1.ScalarProduct(v0));
    Lagrange(v0, v1);
    MulOnes(NormSq(v0), NormSq(v1));
  }

  // ---------------------------------------------------------------------
  // Properties of the centre helpers

  /** The centre found from one tangent is as far from `start` as from
      `end`, so `Point.distance(center, start)` is a radius that also
      reaches `end`. */
  lemma CenterIsEquidistant(start: Point, end: Point, tangent: Point, sqrt: real -> real)
    requires IsSqrt(sqrt) && tangent != Origin && start != end
    ensures CenterWithTangent(start, end, tangent, sqrt).Ok?
    ensures var center := CenterWithTangent(start, end, tangent, sqrt).value;
      Point.Distance(center, start, sqrt) == Point.Distance(center, end, sqrt)
  {
    var center := CenterWithTangent(start, end, tangent, sqrt).value;
    assert NormSq(center.Sub(start)) == NormSq(center.Sub(end));
    DistanceIsNorm(center, start, sqrt);
    DistanceIsNorm(center, end, sqrt);
  }

  /** Away from the parallel case the radii at `p0` and `p1` meet in exactly
      one point, and that point is the computed intersection. */
  lemma RadiiMeetOnlyAtCenter(p0: Point, p1: Point, tangent0: Point, tangent1: Point, q: Point,
                              sqrt: real -> real)
    requires IsSqrt(sqrt) && tangent0 != Origin && tangent1 != Origin
    requires !NearlyParallel(tangent0, tangent1, sqrt)
    ensures IntersectionWithEachTangent(p0, p1, tangent0, tangent1, sqrt).Ok?
    ensures q.Sub(p0).ScalarProduct(tangent0) == 0.0 && q.Sub(p1).ScalarProduct(tangent1) == 0.0
            <==> q == IntersectionWithEachTangent(p0, p1, tangent0, tangent1, sqrt).value
  {
    NormalOfZero(tangent0);
    NormalOfZero(tangent1);
    var line0 := Line.Create(p0, tangent0.Normal(), sqrt).value;
    var line1 := Line.Create(p1, tangent1.Normal(), sqrt).value;
    RadialLinesMeet(p0, p1, tangent0, tangent1, line0, line1, sqrt);
    assert IntersectionWithEachTangent(p0, p1, tangent0, tangent1, sqrt) == line0.Intersection(line1);
    if q.Sub(p0).ScalarProduct(tangent0) == 0.0 && q.Sub(p1).ScalarProduct(tangent1) == 0.0 {
      OnRadius(line0, p0, tangent0, q, sqrt);
      OnRadius(line1, p1, tangent1, q, sqrt);
      IntersectionIsTheCommonPoint(line0, line1, q);
    }
  }

  /** When the tangent is not nearly along the chord, `CenterWithTangent`
      returns exactly the one point on the radius at `start` and on the
      perpendicular bisector of the chord. */
  lemma CenterOnRadiusAndBisector(start: Point, end: Point, tangent: Point, q: Point, sqrt: real -> real)
    requires IsSqrt(sqrt) && tangent != Origin && start != end
    requires !NearlyParallel(tangent, end.Sub(start), sqrt)
    ensures q.Sub(start).ScalarProduct(tangent) == 0.0
            && q.Sub(Midpoint(start, end)).ScalarProduct(end.Sub(start)) == 0.0
            <==> CenterWithTangent(start, end, tangent, sqrt) == Ok(q)
  {
    var chord := end.Sub(start);
    SubZero(end, start);
    RadiiMeetOnlyAtCenter(start, Midpoint(start, end), tangent, chord, q, sqrt);
    assert CenterWithTangent(start, end, tangent, sqrt)
        == IntersectionWithEachTangent(start, Midpoint(start, end), tangent, chord, sqrt);
  }

  /** A tangent at least 45 degrees away from the chord's direction is not
      nearly parallel to it, so the point on the radius at `start` and on
      the chord's bisector is the centre. */
  lemma CenterAwayFromChord(start: Point, end: Point, tangent: Point, center: Point,
                            dot: real, tangentSq: real, chordSq: real, sqrt: real -> real)
    requires IsSqrt(sqrt) && tangent != Origin && start != end
    requires dot == tangent.ScalarProduct(end.Sub(start))
    requires tangentSq == NormSq(tangent) && chordSq == NormSq(end.Sub(start))
    requires 2.0 * Square(dot) <= tangentSq * chordSq
    requires center.Sub(start).ScalarProduct(tangent) == 0.0
    requires center.Sub(Midpoint(start, end)).ScalarProduct(end.Sub(start)) == 0.0
    ensures CenterWithTangent(start, end, tangent, sqrt) == Ok(center)
  {
    SubZero(end, start);
    NotNearlyParallel(tangent, end.Sub(start), sqrt);
    CenterOnRadiusAndBisector(start, end, tangent, center, sqrt);
  }

  /** When the tangents are not nearly parallel, `CenterWithEachTangent`
      returns exactly the one point on both radii. */
  lemma CenterOnBothRadii(p0: Point, p1: Point, tangent0: Point, tangent1: Point, q: Point,
                          sqrt: real -> real)
    requires IsSqrt(sqrt) && tangent0 != Origin && tangent1 != Origin
    requires !NearlyParallel(tangent0, tangent1, sqrt)
    ensures q.Sub(p0).ScalarProduct(tangent0) == 0.0 && q.Sub(p1).ScalarProduct(tangent1) == 0.0
            <==> CenterWithEachTangent(p0, p1, tangent0, tangent1, sqrt) == Ok(q)
  {
    RadiiMeetOnlyAtCenter(p0, p1, tangent0, tangent1, q, sqrt);
    assert CenterWithEachTangent(p0, p1, tangent0, tangent1, sqrt)
        == IntersectionWithEachTangent(p0, p1, tangent0, tangent1, sqrt);
  }

  // ---------------------------------------------------------------------
  // The worked examples of the repository's tests

  /** An arc along a diameter, from (-r, 0) to (r, 0) with a vertical
      tangent, is centred at the origin. */
  lemma DiameterArcCenter(r: real, k: real, sqrt: real -> real)
    requires IsSqrt(sqrt) && r != 0.0 && k != 0.0
    ensures CenterWithTangent(Point(-r, 0.0), Point(r, 0.0), Point(0.0, k), sqrt) == Ok(Origin)
  {
    var start, end, tangent := Point(-r, 0.0), Point(r, 0.0), Point(0.0, k);
    assert end.Sub(start) == Point(2.0 * r, 0.0);
    assert Midpoint(start, end) == Origin;
    var chordSq := NormSq(end.Sub(start));
    SquarePositive(k);
    SquarePositive(2.0 * r);
    assert 0.0 < chordSq;
    assert 0.0 < Square(k) * chordSq;
    CenterAwayFromChord(start, end, tangent, Origin, 0.0, Square(k), chordSq, sqrt);
  }

  /** A quarter arc from (r, 0) to (0, r) with a vertical tangent, either
      way up, is centred at the origin and not at the chord's midpoint. */
  lemma QuarterArcCenter(r: real, k: real, sqrt: real -> real)
    requires IsSqrt(sqrt) && r != 0.0 && k != 0.0
    ensures CenterWithTangent(Point(r, 0.0), Point(0.0, r), Point(0.0, k), sqrt) == Ok(Origin)
  {
    var start, end, tangent := Point(r, 0.0), Point(0.0, r), Point(0.0, k);
    assert end.Sub(start) == Point(-r, r);
    assert Midpoint(start, end) == Point(r / 2.0, r / 2.0);
    SquareOfProduct(k, r);
    CenterAwayFromChord(start, end, tangent, Origin, k * r, Square(k), 2.0 * Square(r), sqrt);
  }

  /** `test_simple_arc`: from (-1, 0) to (1, 0) with tangent (0, 1) the
      centre is the origin. */
  lemma ExampleSimpleArcCenter(sqrt: real -> real)
    requires IsSqrt(sqrt)
    ensures CenterWithTangent(Point(-1.0, 0.0), Point(1.0, 0.0), Point(0.0, 1.0), sqrt) == Ok(Origin)
  {
    DiameterArcCenter(1.0, 1.0, sqrt);
  }

  /** `test_45deg_arc`: from (1, 0) to (0, 1) with tangent (0, 1) the
      centre is the origin. */
  lemma Example45DegCenter(sqrt: real -> real)
    requires IsSqrt(sqrt)
    ensures CenterWithTangent(Point(1.0, 0.0), Point(0.0, 1.0), Point(0.0, 1.0), sqrt) == Ok(Origin)
  {
    QuarterArcCenter(1.0, 1.0, sqrt);
  }

  /** `test_reverse_45deg_arc`: the same ends with tangent (0, -1) have the
      same centre. */
  lemma ExampleReverse45DegCenter(sqrt: real -> real)
    requires IsSqrt(sqrt)
    ensures CenterWithTangent(Point(1.0, 0.0), Point(0.0, 1.0), Point(0.0, -1.0), sqrt) == Ok(Origin)
  {
    QuarterArcCenter(1.0, -1.0, sqrt);
  }

  /** Tangents `(k, k)` at `(-r, 0)` and `(k, -k)` at `(r, 0)` are
      orthogonal, and their radii meet at `(0, -r)`. */
  lemma CrossedTangentsCenter(r: real, k: real, sqrt: real -> real)
    requires IsSqrt(sqrt) && k != 0.0
    ensures CenterWithEachTangent(Point(-r, 0.0), Point(r, 0.0), Point(k, k), Point(k, -k), sqrt)
         == Ok(Point(0.0, -r))
  {
    var p0, p1, tangent0, tangent1 := Point(-r, 0.0), Point(r, 0.0), Point(k, k), Point(k, -k);
    assert tangent0 != Origin && tangent1 != Origin;
    SquarePositive(k);
    assert 0.0 < NormSq(tangent0) && 0.0 < NormSq(tangent1);
    assert 0.0 < NormSq(tangent0) * NormSq(tangent1);
    assert tangent0.ScalarProduct(tangent1) == 0.0;
    NotNearlyParallel(tangent0, tangent1, sqrt);
    CenterOnBothRadii(p0, p1, tangent0, tangent1, Point(0.0, -r), sqrt);
  }

  /** `test_compute_center_from_both_tangents`: tangents `(1, 1)` at
      `(-1, 0)` and `(1, -1)` at `(1, 0)` give the centre `(0, -1)`. */
  lemma ExampleCrossedTangentsCenter(sqrt: real -> real)
    requires IsSqrt(sqrt)
    ensures CenterWithEachTangent(Point(-1.0, 0.0), Point(1.0, 0.0), Point(1.0, 1.0), Point(1.0, -1.0), sqrt)
         == Ok(Point(0.0, -1.0))
  {
    CrossedTangentsCenter(1.0, 1.0, sqrt);
  }

  /** `test_compute_center_from_both_tangents_simple`: opposite tangents
      at (-1, 0) and (1, 0) give parallel radii, so the centre is the
      midpoint, the origin. */
  lemma ExampleOppositeTangentsCenter(sqrt: real -> real)
    requires IsSqrt(sqrt)
    ensures CenterWithEachTangent(Point(-1.0, 0.0), Point(1.0, 0.0), Point(0.0, 1.0), Point(0.0, -1.0), sqrt)
            == Ok(Origin)
  {
    var p0, p1, tangent0, tangent1 := Point(-1.0, 0.0), Point(1.0, 0.0), Point(0.0, 1.0), Point(0.0, -1.0);
    OppositeUnitTangents(p0, p1, tangent0, tangent1);
  }

  /** The tangents (0, 1) and (0, -1) are non-zero and parallel, and the
      midpoint of (-1, 0) and (1, 0) is the origin. */
  lemma OppositeUnitTangents(p0: Point, p1: Point, tangent0: Point, tangent1: Point)
    requires p0 == Point(-1.0, 0.0) && p1 == Point(1.0, 0.0)
    requires tangent0 == Point(0.0, 1.0) && tangent1 == Point(0.0, -1.0)
    ensures tangent0 != Origin && tangent1 != Origin && Cross(tangent0, tangent1) == 0.0
    ensures Midpoint(p0, p1) == Origin
  {
  }

  /** Building a line from a unit direction keeps that direction. */
  lemma UnitLine(p: Point, u: Point, sqrt: real -> real)
    requires IsSqrt(sqrt) && IsUnit(u)
    ensures Line.Create(p, u, sqrt) == Ok(Line(p, u))
  {
    SqrtOfOne(sqrt);
    assert Norm(u, sqrt) == 1.0;
    assert u != Origin;
    var v := Line.Create(p, u, sqrt).value.vector;
    assert v.Mul(1.0) == u;
  }

  /** `Line((1, 2), (1, 1))` contains `(2, 3)`. */
  lemma ExampleContains(sqrt: real -> real)
    requires IsSqrt(sqrt)
    ensures Line.Create(Point(1.0, 2.0), Point(1.0, 1.0), sqrt).Ok?
    ensures Line.Create(Point(1.0, 2.0), Point(1.0, 1.0), sqrt).value.Contains(Point(2.0, 3.0))
  {
    CreateContains(Point(1.0, 2.0), Point(1.0, 1.0), Point(2.0, 3.0), sqrt);
  }

  /** The x and y axes meet at the origin (both directions are unit
      vectors, so `UnitLine` says they are the lines `Line` builds). */
  lemma AxesMeet()
    ensures Line(Origin, Point(1.0, 0.0)).Intersection(Line(Origin, Point(0.0, 1.0))) == Ok(Origin)
  {
    var l0, l1 := Line(Origin, Point(1.0, 0.0)), Line(Origin, Point(0.0, 1.0));
    IsCloseToOne(0.0);
    LineContainsItsPoints(l0, 0.0);
    LineContainsItsPoints(l1, 0.0);
    IntersectionIsTheCommonPoint(l0, l1, Origin);
  }

  /** `test_intersection`: the lines built along the x and y axes through
      the origin keep their unit directions and meet at the origin. */
  lemma ExampleAxesMeet(sqrt: real -> real)
    requires IsSqrt(sqrt)
    ensures Line.Create(Origin, Point(1.0, 0.0), sqrt) == Ok(Line(Origin, Point(1.0, 0.0)))
    ensures Line.Create(Origin, Point(0.0, 1.0), sqrt) == Ok(Line(Origin, Point(0.0, 1.0)))
    ensures Line.Create(Origin, Point(1.0, 0.0), sqrt).value.Intersection(
              Line.Create(Origin, Point(0.0, 1.0), sqrt).value) == Ok(Origin)
  {
    var ux, uy := Point(1.0, 0.0), Point(0.0, 1.0);
    AxesAreUnit(ux, uy);
    UnitLine(Origin, ux, sqrt);
    UnitLine(Origin, uy, sqrt);
    AxesMeet();
  }

  lemma AxesAreUnit(ux: Point, uy: Point)
    requires ux == Point(1.0, 0.0) && uy == Point(0.0, 1.0)
    ensures IsUnit(ux) && IsUnit(uy)
  {
  }

  /** The diagonal through `(3, 1)` meets the horizontal through `(0, 2)`
      at `(4, 2)`. */
  lemma ExampleDiagonalMeetsHorizontal(sqrt: real -> real)
    requires IsSqrt(sqrt)
    ensures Line.Create(Point(3.0, 1.0), Point(1.0, 1.0), sqrt).Ok?
    ensures Line.Create(Point(0.0, 2.0), Point(1.0, 0.0), sqrt) == Ok(Line(Point(0.0, 2.0), Point(1.0, 0.0)))
    ensures Line.Create(Point(3.0, 1.0), Point(1.0, 1.0), sqrt).value.Intersection(
              Line(Point(0.0, 2.0), Point(1.0, 0.0))) == Ok(Point(4.0, 2.0))
  {
    UnitLine(Point(0.0, 2.0), Point(1.0, 0.0), sqrt);
    DiagonalLine(Point(3.0, 1.0), sqrt);
    DiagonalMeetsHorizontal(Line.Create(Point(3.0, 1.0), Point(1.0, 1.0), sqrt).value);
  }

  lemma DiagonalMeetsHorizontal(l0: Line)
    requires l0.point == Point(3.0, 1.0) && IsUnit(l0.vector) && l0.vector.x == l0.vector.y
    ensures l0.Intersection(Line(Point(0.0, 2.0), Point(1.0, 0.0))) == Ok(Point(4.0, 2.0))
  {
    var q := Point(4.0, 2.0);
    var l1 := Line(Point(0.0, 2.0), Point(1.0, 0.0));
    CollinearIffCross(Point(-1.0, -1.0), l0.vector);
    CollinearIffCross(Point(-4.0, 0.0), l1.vector);
    DiagonalIsNotAxis(l0.vector);
    IntersectionIsTheCommonPoint(l0, l1, q);
  }

  /** `test_find_point_on_circle`: the vertical line through `(0, 1)` and
      the line through `(3, 5)` along the normalised sum of `(0, 1)` and
      `(1, 0)` meet at `(0, 2)`. */
  lemma ExampleBisectorMeetsVertical(sqrt: real -> real)
    requires IsSqrt(sqrt)
    ensures Point(0.0, 1.0).Add(Point(1.0, 0.0)).Normalize(0.0, sqrt).Ok?
    ensures Line.Create(Point(0.0, 1.0), Point(0.0, 1.0), sqrt) == Ok(Line(Point(0.0, 1.0), Point(0.0, 1.0)))
    ensures var u := Point(0.0, 1.0).Add(Point(1.0, 0.0)).Normalize(0.0, sqrt).value;
      && Line.Create(Point(3.0, 5.0), u, sqrt) == Ok(Line(Point(3.0, 5.0), u))
      && Line(Point(0.0, 1.0), Point(0.0, 1.0)).Intersection(Line(Point(3.0, 5.0), u)) == Ok(Point(0.0, 2.0))
  {
    var sum := Point(0.0, 1.0).Add(Point(1.0, 0.0));
    DiagonalNormalized(sum, sqrt);
    var u := sum.Normalize(0.0, sqrt).value;
    AxesAreUnit(Point(1.0, 0.0), Point(0.0, 1.0));
    UnitLine(Point(0.0, 1.0), Point(0.0, 1.0), sqrt);
    UnitLine(Point(3.0, 5.0), u, sqrt);
    VerticalMeetsDiagonal(Line(Point(3.0, 5.0), u));
  }

  /** Normalising a vector with equal coordinates gives a unit diagonal. */
  lemma DiagonalNormalized(d: Point, sqrt: real -> real)
    requires IsSqrt(sqrt) && d.x == 1.0 && d.y == 1.0
    ensures d.Normalize(0.0, sqrt).Ok?
    ensures IsUnit(d.Normalize(0.0, sqrt).value)
    ensures d.Normalize(0.0, sqrt).value.x == d.Normalize(0.0, sqrt).value.y
  {
    assert d != Origin;
    NormalizeKeepsDirection(d, sqrt);
    var u := d.Normalize(0.0, sqrt).value;
    var n := Norm(d, sqrt);
    assert u.Mul(n) == d;
    assert (u.x - u.y) * n == 0.0;
    NormFacts(d, sqrt);
    ProductZero(u.x - u.y, n);
  }

  /** The vertical through `(0, 1)` meets the unit diagonal through
      `(3, 5)` at `(0, 2)`. */
  lemma VerticalMeetsDiagonal(l1: Line)
    requires l1.point == Point(3.0, 5.0) && IsUnit(l1.vector) && l1.vector.x == l1.vector.y
    ensures Line(Point(0.0, 1.0), Point(0.0, 1.0)).Intersection(l1) == Ok(Point(0.0, 2.0))
  {
    var q := Point(0.0, 2.0);
    var l0 := Line(Point(0.0, 1.0), Point(0.0, 1.0));
    CollinearIffCross(Point(0.0, -1.0), l0.vector);
    CollinearIffCross(Point(3.0, 3.0), l1.vector);
    DiagonalIsNotVertical(l1.vector);
    IntersectionIsTheCommonPoint(l0, l1, q);
  }

  /** The unit diagonal makes an angle with the y axis whose cosine is far
      from 1. */
  lemma DiagonalIsNotVertical(u: Point)
    requires IsUnit(u) && u.x == u.y
    ensures !IsClose(Fabs(u.ScalarProduct(Point(0.0, 1.0))), 1.0)
  {
    DiagonalIsNotAxis(u);
    assert u.ScalarProduct(Point(0.0, 1.0)) == Point(1.0, 0.0).ScalarProduct(u);
  }

  /** Two vertical lines are parallel. */
  lemma ExampleParallel(sqrt: real -> real)
    requires IsSqrt(sqrt)
    ensures Line.Create(Point(0.0, 1.0), Point(0.0, 1.0), sqrt).Ok?
    ensures Line.Create(Point(1.0, 1.0), Point(0.0, 1.0), sqrt).Ok?
    ensures Line.Create(Point(0.0, 1.0), Point(0.0, 1.0), sqrt).value.Intersection(
              Line.Create(Point(1.0, 1.0), Point(0.0, 1.0), sqrt).value) == Err(ValueError)
  {
    ParallelLinesFail(Point(0.0, 1.0), Point(0.0, 1.0), Point(1.0, 1.0), Point(0.0, 1.0), sqrt);
  }

  // ---------------------------------------------------------------------
  // Real-arithmetic helpers

  /** A vector collinear with `v` is `k` steps of `v`, for
      `k = d.v / |v|^2`. */
  lemma AlongDirection(d: Point, v: Point, k: real)
    requires Cross(d, v) == 0.0 && NormSq(v) != 0.0
    requires k == d.ScalarProduct(v) / NormSq(v)
    ensures d == v.Mul(k)
  {
    var n := NormSq(v);
    assert k * n == d.ScalarProduct(v);
    assert d.x * n == v.x * d.ScalarProduct(v) + v.y * Cross(d, v);
    assert d.y * n == v.y * d.ScalarProduct(v) - v.x * Cross(d, v);
    assert (d.x - v.x * k) * n == 0.0;
    assert (d.y - v.y * k) * n == 0.0;
    ProductZero(d.x - v.x * k, n);
    ProductZero(d.y - v.y * k, n);
  }

  /** A vector collinear with two non-collinear vectors is zero. */
  lemma CrossZeroWithBoth(d: Point, v0: Point, v1: Point)
    requires Cross(d, v0) == 0.0 && Cross(d, v1) == 0.0 && Cross(v0, v1) != 0.0
    ensures d == Origin
  {
    assert d.x * Cross(v0, v1) == v0.x * Cross(d, v1) - v1.x * Cross(d, v0);
    assert d.y * Cross(v0, v1) == v0.y * Cross(d, v1) - v1.y * Cross(d, v0);
    ProductZero(d.x, Cross(v0, v1));
    ProductZero(d.y, Cross(v0, v1));
  }

  /** The unit direction of the diagonal has equal coordinates. */
  lemma DiagonalLine(p: Point, sqrt: real -> real)
    requires IsSqrt(sqrt)
    ensures Line.Create(p, Point(1.0, 1.0), sqrt).Ok?
    ensures IsUnit(Line.Create(p, Point(1.0, 1.0), sqrt).value.vector)
    ensures Line.Create(p, Point(1.0, 1.0), sqrt).value.vector.x == Line.Create(p, Point(1.0, 1.0), sqrt).value.vector.y
  {
    var diagonal := Point(1.0, 1.0);
    assert diagonal != Origin;
    var u := Line.Create(p, diagonal, sqrt).value.vector;
    var n := Norm(diagonal, sqrt);
    assert u.Mul(n) == diagonal;
    assert (u.x - u.y) * n == 0.0;
    NormFacts(diagonal, sqrt);
    ProductZero(u.x - u.y, n);
  }

  /** The unit diagonal makes an angle with the x axis whose cosine is far
      from 1. */
  lemma DiagonalIsNotAxis(u: Point)
    requires IsUnit(u) && u.x == u.y
    ensures !IsClose(Fabs(Point(1.0, 0.0).ScalarProduct(u)), 1.0)
  {
    assert Square(u.x) == 0.5;
    var c := Fabs(u.x);
    assert Square(c) == 0.5;
    if c > 0.75 {
      SquareMonotonic(0.75, c);
      assert false;
    }
    IsCloseToOne(c);
  }

  lemma NormFacts(p: Point, sqrt: real -> real)
    requires IsSqrt(sqrt)
    ensures 0.0 <= Norm(p, sqrt) && Square(Norm(p, sqrt)) == NormSq(p)
    ensures Norm(p, sqrt) == 0.0 <==> p == Origin
  {
    SqrtZeroIffZero(sqrt, NormSq(p));
    SumOfSquaresZero(p.x, p.y);
  }

  lemma MulAfterDivision(p: Point, n: real)
    requires n != 0.0
    ensures Point(p.x / n, p.y / n).Mul(n) == p
  {
    DivideBack(p.x, n);
    DivideBack(p.y, n);
  }

  lemma SumOfSquaresZero(a: real, b: real)
    ensures Square(a) + Square(b) == 0.0 <==> a == 0.0 && b == 0.0
  {
    if a != 0.0 {
      SquarePositive(a);
    } else if b != 0.0 {
      SquarePositive(b);
    }
  }

  lemma SquareIsOne(c: real)
    ensures c * c == 1.0 ==> IsClose(Fabs(c), 1.0)
  {
    if c * c == 1.0 {
      assert (c - 1.0) * (c + 1.0) == 0.0;
      ProductZero(c - 1.0, c + 1.0);
    }
  }

  lemma UnitAfterDivision(p: Point, n: real)
    requires n != 0.0 && Square(n) == NormSq(p)
    ensures IsUnit(Point(p.x / n, p.y / n))
  {
    var qx, qy := p.x / n, p.y / n;
    DivideBack(p.x, n);
    DivideBack(p.y, n);
    SquareOfProduct(qx, n);
    SquareOfProduct(qy, n);
    assert Square(qx * n) == Square(p.x);
    assert Square(qy * n) == Square(p.y);
    SquarePositive(n);
    assert Square(qx) * Square(n) + Square(qy) * Square(n) == Square(p.x) + Square(p.y);
    CancelSum(Square(qx), Square(qy), Square(n), Square(p.x) + Square(p.y));
  }

  // ---------------------------------------------------------------------
  // Lemmas used by the centre helpers (stated below)

  lemma IntersectionOnBothLines(l0: Line, l1: Line)
    requires IsUnit(l0.vector) && IsUnit(l1.vector)
    requires l0.Intersection(l1).Ok?
    ensures l0.Contains(l0.Intersection(l1).value)
    ensures l1.Contains(l0.Intersection(l1).value)
  {
    var v0, p0, v1, p1 := l0.vector, l0.point, l1.vector, l1.point;
    var c := v1.ScalarProduct(v0);
    var dp := p1.Sub(p0);
    SquareIsOne(c);
    var coef0 := Coef0(dp.ScalarProduct(v0), dp.ScalarProduct(v1), c);
    var q := v0.Mul(coef0).Add(p0);
    assert l0.Intersection(l1) == Ok(q);
    IntersectionAlgebra(v0, v1, dp, coef0);
    assert p1.Sub(q) == dp.Sub(v0.Mul(coef0));
    CollinearIffCross(Point(p1.x - q.x, p1.y - q.y), v1);
    assert Point(p0.x - q.x, p0.y - q.y) == v0.Mul(-coef0);
    CollinearWithMultiple(v0, -coef0);
  }

  /** The closed-form coefficient puts `p0 + coef * v0` on the second line
      when both directions are unit vectors. */
  lemma IntersectionAlgebra(v0: Point, v1: Point, dp: Point, coef: real)
    requires IsUnit(v0) && IsUnit(v1)
    requires 1.0 - v1.ScalarProduct(v0) * v1.ScalarProduct(v0) != 0.0
    requires coef == Coef0(dp.ScalarProduct(v0), dp.ScalarProduct(v1), v1.ScalarProduct(v0))
    ensures Cross(dp.Sub(v0.Mul(coef)), v1) == 0.0
  {
    var c := v1.ScalarProduct(v0);
    var x := Cross(v0, v1);
    var y := Cross(dp, v1);
    Lagrange(v0, v1);
    MulOnes(NormSq(v0), NormSq(v1));
    assert Square(x) + Square(c) == 1.0;
    BinetCauchy(dp, v1, v0);
    MulOne(dp.ScalarProduct(v0), NormSq(v1));
    var num := dp.ScalarProduct(v0) - dp.ScalarProduct(v1) * c;
    var den := 1.0 - c * c;
    assert num == y * x;
    assert den == Square(x);
    DivCancel(y, x, num, den, coef);
    assert Cross(dp.Sub(v0.Mul(coef)), v1) == y - coef * x;
  }

  lemma Lagrange(a: Point, b: Point)
    ensures Square(Cross(a, b)) + Square(b.ScalarProduct(a)) == NormSq(a) * NormSq(b)
  {
  }

  lemma BinetCauchy(d: Point, b: Point, a: Point)
    ensures Cross(d, b) * Cross(a, b) == d.ScalarProduct(a) * NormSq(b) - d.ScalarProduct(b) * b.ScalarProduct(a)
  {
  }

  lemma DistanceIsNorm(a: Point, b: Point, sqrt: real -> real)
    requires IsSqrt(sqrt)
    ensures Point.Distance(a, b, sqrt) == Norm(a.Sub(b), sqrt)
  {
    assert Point(a.x - b.x, a.y - b.y) == a.Sub(b);
  }

  lemma SubZero(a: Point, b: Point)
    ensures a.Sub(b) == Origin <==> a == b
  {
    if a != b {
      assert a.Sub(b).x != 0.0 || a.Sub(b).y != 0.0;
    }
  }

  lemma NormalOfZero(p: Point)
    ensures p.Normal() == Origin <==> p == Origin
  {
    if p != Origin {
      assert p.Normal().x != 0.0 || p.Normal().y != 0.0;
    }
  }

  /** What the meeting point of two radial lines satisfies, and when the
      lines count as parallel. */
  lemma RadialLinesMeet(p0: Point, p1: Point, tangent0: Point, tangent1: Point, line0: Line, line1: Line,
                        sqrt: real -> real)
    requires IsSqrt(sqrt)
    requires Line.Create(p0, tangent0.Normal(), sqrt) == Ok(line0)
    requires Line.Create(p1, tangent1.Normal(), sqrt) == Ok(line1)
    ensures line0.Intersection(line1).Ok? ==>
      && line0.Intersection(line1).value.Sub(p0).ScalarProduct(tangent0) == 0.0
      && line0.Intersection(line1).value.Sub(p1).ScalarProduct(tangent1) == 0.0
    ensures Cross(tangent0, tangent1) == 0.0 ==> line0.Intersection(line1) == Err(ValueError)
    ensures line0.Intersection(line1).Err? <==> NearlyParallel(tangent0, tangent1, sqrt)
  {
    assert tangent0 != Origin && tangent1 != Origin;
    RadialCosine(tangent0, tangent1, line0.vector, line1.vector, sqrt);
    if line0.Intersection(line1).Ok? {
      var q := line0.Intersection(line1).value;
      IntersectionOnBothLines(line0, line1);
      RadialContains(line0, p0, tangent0, q, sqrt);
      RadialContains(line1, p1, tangent1, q, sqrt);
    }
    if Cross(tangent0, tangent1) == 0.0 {
      NormalOfZero(tangent0);
      NormalOfZero(tangent1);
      assert Cross(tangent0.Normal(), tangent1.Normal()) == Cross(tangent0, tangent1);
      ParallelUnitLines(line0, line1, tangent0.Normal(), tangent1.Normal(), sqrt);
    }
  }

  /** The unit radial directions make the angle of the tangents. */
  lemma RadialCosine(tangent0: Point, tangent1: Point, v0: Point, v1: Point, sqrt: real -> real)
    requires IsSqrt(sqrt) && tangent0 != Origin && tangent1 != Origin
    requires v0.Mul(Norm(tangent0.Normal(), sqrt)) == tangent0.Normal()
    requires v1.Mul(Norm(tangent1.Normal(), sqrt)) == tangent1.Normal()
    ensures v1.ScalarProduct(v0) == Cosine(tangent0, tangent1, sqrt)
  {
    var n0, n1 := Norm(tangent0, sqrt), Norm(tangent1, sqrt);
    NormalIsQuarterTurn(tangent0);
    NormalIsQuarterTurn(tangent1);
    assert Norm(tangent0.Normal(), sqrt) == n0;
    assert Norm(tangent1.Normal(), sqrt) == n1;
    NormFacts(tangent0, sqrt);
    NormFacts(tangent1, sqrt);
    if n0 * n1 == 0.0 {
      ProductZero(n0, n1);
      assert false;
    }
    ScaledScalarProduct(v1, v0, n1, n0);
    assert tangent1.Normal().ScalarProduct(tangent0.Normal()) == tangent0.ScalarProduct(tangent1);
    DivideExact(v1.ScalarProduct(v0), tangent0.ScalarProduct(tangent1), n0 * n1);
  }

  lemma ScaledScalarProduct(a: Point, b: Point, k: real, l: real)
    ensures a.Mul(k).ScalarProduct(b.Mul(l)) == a.ScalarProduct(b) * (l * k)
  {
  }

  /** A point orthogonal to the tangent, seen from `p`, is on the radial line. */
  lemma OnRadius(line: Line, p: Point, tangent: Point, q: Point, sqrt: real -> real)
    requires IsSqrt(sqrt)
    requires Line.Create(p, tangent.Normal(), sqrt) == Ok(line)
    requires q.Sub(p).ScalarProduct(tangent) == 0.0
    ensures line.Contains(q)
  {
    var n := Norm(tangent.Normal(), sqrt);
    NormFacts(tangent.Normal(), sqrt);
    NormalOfZero(tangent);
    var v := line.vector;
    assert v.Normal().Mul(n) == tangent.Mul(-1.0);
    var d := Point(p.x - q.x, p.y - q.y);
    ScaledScalarProduct(d, v.Normal(), 1.0, n);
    assert d.ScalarProduct(v.Normal()) * n == 0.0;
    ProductZero(d.ScalarProduct(v.Normal()), n);
    IsCloseToZero(d.ScalarProduct(v.Normal()));
  }

  /** Directions whose squared cosine is at most one half are not nearly
      parallel. */
  lemma NotNearlyParallel(a: Point, b: Point, sqrt: real -> real)
    requires IsSqrt(sqrt) && a != Origin && b != Origin
    requires 2.0 * Square(a.ScalarProduct(b)) <= NormSq(a) * NormSq(b)
    ensures !NearlyParallel(a, b, sqrt)
  {
    var na, nb := Norm(a, sqrt), Norm(b, sqrt);
    NormFacts(a, sqrt);
    NormFacts(b, sqrt);
    var n := na * nb;
    if n == 0.0 {
      ProductZero(na, nb);
      assert false;
    }
    var c := Cosine(a, b, sqrt);
    assert c == a.ScalarProduct(b) / n;
    DivideBack(a.ScalarProduct(b), n);
    SquareOfProduct(c, n);
    SquareOfProduct(na, nb);
    SquarePositive(n);
    var p := NormSq(a) * NormSq(b);
    assert Square(n) == p;
    assert Square(c) * p == Square(a.ScalarProduct(b));
    assert (2.0 * Square(c) - 1.0) * p == 2.0 * (Square(c) * p) - p;
    NonPositiveFactor(2.0 * Square(c) - 1.0, p);
    var f := Fabs(c);
    assert Square(f) == Square(c);
    if f > 0.75 {
      SquareMonotonic(0.75, f);
      assert false;
    }
    IsCloseToOne(f);
  }

  lemma RadialContains(line: Line, p: Point, tangent: Point, q: Point, sqrt: real -> real)
    requires IsSqrt(sqrt)
    requires Line.Create(p, tangent.Normal(), sqrt) == Ok(line)
    requires line.Contains(q)
    ensures q.Sub(p).ScalarProduct(tangent) == 0.0
  {
  }

  /** Unit directions obtained by normalising two collinear non-zero
      directions make `intersection` raise `ValueError`. */
  lemma ParallelUnitLines(l0: Line, l1: Line, d0: Point, d1: Point, sqrt: real -> real)
    requires IsSqrt(sqrt)
    requires l0.vector.Mul(Norm(d0, sqrt)) == d0
    requires l1.vector.Mul(Norm(d1, sqrt)) == d1
    requires IsUnit(l0.vector) && IsUnit(l1.vector)
    requires d0 != Origin && d1 != Origin && Cross(d0, d1) == 0.0
    ensures l0.Intersection(l1).Err?
  {
    var u0, u1 := l0.vector, l1.vector;
    var n0, n1 := Norm(d0, sqrt), Norm(d1, sqrt);
    NormFacts(d0, sqrt);
    NormFacts(d1, sqrt);
    CrossOfMultiples(u0, u1, n0, n1);
    assert Cross(u0, u1) * (n0 * n1) == 0.0;
    if Cross(u0, u1) != 0.0 {
      ProductZero(Cross(u0, u1), n0 * n1);
      ProductZero(n0, n1);
      assert false;
    }
    Lagrange(u0, u1);
    MulOnes(NormSq(u0), NormSq(u1));
    SquareIsOne(u1.ScalarProduct(u0));
  }

  lemma CrossOfMultiples(a: Point, b: Point, k: real, l: real)
    ensures Cross(a.Mul(k), b.Mul(l)) == Cross(a, b) * (k * l)
  {
  }

  lemma BisectorEquidistant(start: Point, end: Point, center: Point)
    requires center.Sub(Midpoint(start, end)).ScalarProduct(end.Sub(start)) == 0.0
    ensures NormSq(center.Sub(start)) == NormSq(center.Sub(end))
  {
  }

  lemma MidpointEquidistant(start: Point, end: Point)
    ensures NormSq(Midpoint(start, end).Sub(start)) == NormSq(Midpoint(start, end).Sub(end))
  {
  }
}
