/** The motions of ex02/motion.py: a straight `Translation` between two
    points and a `Rotation` along an arc joining two translations. */
module Motion {
  import opened Maths
  import opened Failures
  import opened Geometry

  /** A straight move from `start` to `end`, with its length and its unit
      direction computed once at construction. */
  datatype Translation = Translation(start: Point, end: Point, length: real, vector: Point) {

    /** `Translation(start, end)`: the length is the distance between the
        points and the direction is `end - start` normalised, which raises
        `ZeroDivisionError` when the two points coincide. */
    static function Create(start: Point, end: Point, sqrt: real -> real): (r: Result<Translation>)
      requires IsSqrt(sqrt)
      ensures r.Err? <==> start == end
      ensures r.Err? ==> r.error == ZeroDivisionError
      ensures r.Ok? ==> r.value.start == start && r.value.end == end
      ensures r.Ok? ==> 0.0 < r.value.length && Square(r.value.length) == NormSq(end.Sub(start))
      ensures r.Ok? ==> IsUnit(r.value.vector) && r.value.vector.Mul(r.value.length) == end.Sub(start)
    {
      var length := Point.Distance(start, end, sqrt);
      var v := end.Sub(start).Normalize(0.0, sqrt);
      SubZero(end, start);
      DirectionFacts(start, end, sqrt);
      if v.Err? then
        Err(v.error)
      else
        Ok(Translation(start, end, length, v.value))
    }

    function GetLength(): real {
      length
    }

    /** `is_parallel_with`: the two directions are collinear. */
    predicate IsParallelWith(other: Translation) {
      vector.IsCollinear(other.vector)
    }
  }

  /** The distance between two distinct points is positive and scales the
      normalised difference back to the difference. */
  lemma DirectionFacts(start: Point, end: Point, sqrt: real -> real)
    requires IsSqrt(sqrt)
    ensures end.Sub(start).Normalize(0.0, sqrt).Err? <==> start == end
    ensures start != end ==>
      var length := Point.Distance(start, end, sqrt);
      var v := end.Sub(start).Normalize(0.0, sqrt).value;
      && 0.0 < length && Square(length) == NormSq(end.Sub(start))
      && IsUnit(v) && v.Mul(length) == end.Sub(start)
  {
    var d := end.Sub(start);
    SubZero(end, start);
    assert Square(start.x - end.x) == Square(end.x - start.x);
    assert Square(start.y - end.y) == Square(end.y - start.y);
    assert Point.Distance(start, end, sqrt) == Norm(d, sqrt);
    NormFacts(d, sqrt);
  }

  /** What ex02/motion.py needs of an arc: its size. */
  datatype ArcMeasure = ArcMeasure(radius: real, length: real)

  /** The arc a rotation follows, from `start` to `end` with the given
      tangent directions at both ends. */
  datatype Arc = Arc(start: Point, end: Point, startVector: Point, endVector: Point, radius: real, length: real) {

    /** `Arc(start, end, start_vector, end_vector)`: the ends and tangents
        are kept, and the radius and length are those `measure` computes
        from them. */
    static function Create(start: Point, end: Point, startVector: Point, endVector: Point,
                           measure: (Point, Point, Point, Point) -> ArcMeasure): (r: Arc)
      ensures r.start == start && r.end == end
      ensures r.startVector == startVector && r.endVector == endVector
      ensures r.radius == measure(start, end, startVector, endVector).radius
      ensures r.length == measure(start, end, startVector, endVector).length
    {
      var m := measure(start, end, startVector, endVector);
      Arc(start, end, startVector, endVector, m.radius, m.length)
    }
  }

  /** A turn along an arc. */
  datatype Rotation = Rotation(arc: Arc) {

    /** `Rotation(start, end, start_vector, end_vector)`. */
    static function Create(start: Point, end: Point, startVector: Point, endVector: Point,
                           measure: (Point, Point, Point, Point) -> ArcMeasure): Rotation
    {
      Rotation(Arc.Create(start, end, startVector, endVector, measure))
    }

    /** `Rotation.new_from_translations`: the turn from the end of
        `previous` to the start of `move`, tangent to both. */
    static function NewFromTranslations(previous: Translation, move: Translation,
                                        measure: (Point, Point, Point, Point) -> ArcMeasure): Rotation
    {
      Create(previous.end, move.start, previous.vector, move.vector, measure)
    }

    function GetLength(): real {
      arc.length
    }

    /** `is_on_the_spot`: a turn with radius 0. */
    predicate IsOnTheSpot() {
      arc.radius == 0.0
    }
  }

  // ---------------------------------------------------------------------
  // Properties of translations

  /** The length `get_length` returns is the distance between the end
      points, and it is positive. */
  lemma GetLengthIsDistance(start: Point, end: Point, t: Translation, sqrt: real -> real)
    requires IsSqrt(sqrt)
    requires Translation.Create(start, end, sqrt) == Ok(t)
    ensures t.GetLength() == Point.Distance(start, end, sqrt)
    ensures 0.0 < t.GetLength()
  {
  }

  /** The direction of a translation is a unit vector pointing from
      `start` to `end`. */
  lemma VectorPointsToEnd(start: Point, end: Point, t: Translation, sqrt: real -> real)
    requires IsSqrt(sqrt)
    requires Translation.Create(start, end, sqrt) == Ok(t)
    ensures IsUnit(t.vector)
    ensures t.vector.IsCollinear(end.Sub(start))
    ensures t.vector.ScalarProduct(end.Sub(start)) == t.length
  {
    CollinearWithMultiple(t.vector, t.length);
    assert t.vector.ScalarProduct(end.Sub(start)) == NormSq(t.vector) * t.length;
  }

  /** A translation cannot go from a point to itself. */
  lemma NoTranslationInPlace(p: Point, sqrt: real -> real)
    requires IsSqrt(sqrt)
    ensures Translation.Create(p, p, sqrt) == Err(ZeroDivisionError)
  {
  }

  /** `is_parallel_with` is reflexive and symmetric. */
  lemma ParallelReflexiveSymmetric(t: Translation, u: Translation)
    ensures t.IsParallelWith(t)
    ensures t.IsParallelWith(u) <==> u.IsParallelWith(t)
  {
    CollinearWithMultiple(t.vector, 1.0);
    CollinearSymmetric(t.vector, u.vector);
  }

  /** Two translations are parallel exactly when their displacements have
      a zero cross product, whichever way each one goes. */
  lemma ParallelIffCross(t: Translation, u: Translation, sqrt: real -> real)
    requires IsSqrt(sqrt)
    requires Translation.Create(t.start, t.end, sqrt) == Ok(t)
    requires Translation.Create(u.start, u.end, sqrt) == Ok(u)
    ensures t.IsParallelWith(u) <==> Cross(t.end.Sub(t.start), u.end.Sub(u.start)) == 0.0
  {
    CrossOfMultiples(t.vector, u.vector, t.length, u.length);
    CollinearIffCross(t.vector, u.vector);
    if Cross(t.vector, u.vector) * (t.length * u.length) == 0.0 {
      ProductZero(Cross(t.vector, u.vector), t.length * u.length);
      if t.length * u.length == 0.0 {
        ProductZero(t.length, u.length);
      }
    }
  }

  /** A translation and the one that goes back the other way are parallel. */
  lemma ReversedIsParallel(a: Point, b: Point, sqrt: real -> real)
    requires IsSqrt(sqrt) && a != b
    ensures Translation.Create(a, b, sqrt).Ok? && Translation.Create(b, a, sqrt).Ok?
    ensures Translation.Create(a, b, sqrt).value.IsParallelWith(Translation.Create(b, a, sqrt).value)
  {
    var t := Translation.Create(a, b, sqrt).value;
    var u := Translation.Create(b, a, sqrt).value;
    ParallelIffCross(t, u, sqrt);
    assert Cross(b.Sub(a), a.Sub(b)) == 0.0;
  }

  /** Two translations along the same direction are parallel, however far
      apart and however long. */
  lemma SameDirectionIsParallel(a: Point, b: Point, c: Point, k: real, sqrt: real -> real)
    requires IsSqrt(sqrt) && a != b && k != 0.0
    ensures Translation.Create(a, b, sqrt).Ok?
    ensures Translation.Create(c, c.Add(b.Sub(a).Mul(k)), sqrt).Ok?
    ensures Translation.Create(a, b, sqrt).value.IsParallelWith(
              Translation.Create(c, c.Add(b.Sub(a).Mul(k)), sqrt).value)
  {
    var d := c.Add(b.Sub(a).Mul(k));
    assert d.Sub(c) == b.Sub(a).Mul(k);
    if d == c {
      assert b.Sub(a).Mul(k) == Origin;
      ProductZero(b.x - a.x, k);
      ProductZero(b.y - a.y, k);
      assert false;
    }
    var t := Translation.Create(a, b, sqrt).value;
    var u := Translation.Create(c, d, sqrt).value;
    ParallelIffCross(t, u, sqrt);
    CrossOfMultiples(b.Sub(a), b.Sub(a), 1.0, k);
    assert b.Sub(a).Mul(1.0) == b.Sub(a);
  }

  // ---------------------------------------------------------------------
  // Properties of rotations

  /** A rotation built from two translations keeps the arc's ends and
      tangents in the order end of `previous`, start of `move`, direction
      of `previous`, direction of `move`; its length and whether it turns
      on the spot are those of the measured arc. */
  lemma NewFromTranslationsWiring(previous: Translation, move: Translation,
                                  measure: (Point, Point, Point, Point) -> ArcMeasure)
    ensures var r := Rotation.NewFromTranslations(previous, move, measure);
      && r.arc.start == previous.end && r.arc.end == move.start
      && r.arc.startVector == previous.vector && r.arc.endVector == move.vector
      && r.GetLength() == measure(previous.end, move.start, previous.vector, move.vector).length
      && (r.IsOnTheSpot() <==> measure(previous.end, move.start, previous.vector, move.vector).radius == 0.0)
  {
  }

  /** Between two consecutive translations `a -> b` and `b -> c` the
      rotation starts and ends at `b`, tangent to `b - a` and then to
      `c - b`. */
  lemma RotationJoinsTranslations(a: Point, b: Point, c: Point,
                                  measure: (Point, Point, Point, Point) -> ArcMeasure, sqrt: real -> real)
    requires IsSqrt(sqrt) && a != b && b != c
    ensures Translation.Create(a, b, sqrt).Ok? && Translation.Create(b, c, sqrt).Ok?
    ensures var r := Rotation.NewFromTranslations(Translation.Create(a, b, sqrt).value,
                                                   Translation.Create(b, c, sqrt).value, measure);
      && r.arc.start == b && r.arc.end == b
      && IsUnit(r.arc.startVector) && r.arc.startVector.IsCollinear(b.Sub(a))
      && r.arc.startVector.ScalarProduct(b.Sub(a)) > 0.0
      && IsUnit(r.arc.endVector) && r.arc.endVector.IsCollinear(c.Sub(b))
      && r.arc.endVector.ScalarProduct(c.Sub(b)) > 0.0
  {
    var t := Translation.Create(a, b, sqrt).value;
    var u := Translation.Create(b, c, sqrt).value;
    VectorPointsToEnd(a, b, t, sqrt);
    VectorPointsToEnd(b, c, u, sqrt);
    NewFromTranslationsWiring(t, u, measure);
  }

  /** A translation whose displacement is `len` steps of the unit vector
      `u` has length `len` and direction `u`. */
  lemma TranslationAlong(start: Point, end: Point, u: Point, len: real, sqrt: real -> real)
    requires IsSqrt(sqrt) && IsUnit(u) && 0.0 < len && end.Sub(start) == u.Mul(len)
    ensures Translation.Create(start, end, sqrt) == Ok(Translation(start, end, len, u))
  {
    SubZero(end, start);
    if end == start {
      assert u.Mul(len) == Origin;
      ProductZero(u.x, len);
      ProductZero(u.y, len);
      assert false;
    }
    var t := Translation.Create(start, end, sqrt).value;
    SquareOfProduct(u.x, len);
    SquareOfProduct(u.y, len);
    assert NormSq(end.Sub(start)) == NormSq(u) * Square(len);
    assert Square(t.length) == Square(len);
    SquaresEqual(t.length, len);
    assert t.vector.Mul(len) == u.Mul(len);
    assert (t.vector.x - u.x) * len == 0.0;
    assert (t.vector.y - u.y) * len == 0.0;
    ProductZero(t.vector.x - u.x, len);
    ProductZero(t.vector.y - u.y, len);
  }

  /** A move of `k` units along the x axis. */
  lemma AlongX(a: Point, k: real, sqrt: real -> real)
    requires IsSqrt(sqrt) && 0.0 < k
    ensures Translation.Create(a, a.Add(Point(k, 0.0)), sqrt) ==
            Ok(Translation(a, a.Add(Point(k, 0.0)), k, Point(1.0, 0.0)))
  {
    TranslationAlong(a, a.Add(Point(k, 0.0)), Point(1.0, 0.0), k, sqrt);
  }

  /** A move of `l` units along the y axis. */
  lemma AlongY(a: Point, l: real, sqrt: real -> real)
    requires IsSqrt(sqrt) && 0.0 < l
    ensures Translation.Create(a, a.Add(Point(0.0, l)), sqrt) ==
            Ok(Translation(a, a.Add(Point(0.0, l)), l, Point(0.0, 1.0)))
  {
    TranslationAlong(a, a.Add(Point(0.0, l)), Point(0.0, 1.0), l, sqrt);
  }

  /** The corner of the repository's motion examples, `(0, 0) -> (10, 0)`
      then `(10, 0) -> (10, 10)`, for any start and lengths: the rotation
      between the moves stays at the corner and turns from the x axis to
      the y axis. */
  lemma AxisCorner(a: Point, k: real, l: real, measure: (Point, Point, Point, Point) -> ArcMeasure,
                   sqrt: real -> real)
    requires IsSqrt(sqrt) && 0.0 < k && 0.0 < l
    ensures var b := a.Add(Point(k, 0.0));
      && Translation.Create(a, b, sqrt).Ok?
      && Translation.Create(b, b.Add(Point(0.0, l)), sqrt).Ok?
      && Rotation.NewFromTranslations(Translation.Create(a, b, sqrt).value,
                                      Translation.Create(b, b.Add(Point(0.0, l)), sqrt).value, measure).arc
         == Arc.Create(b, b, Point(1.0, 0.0), Point(0.0, 1.0), measure)
  {
    AlongX(a, k, sqrt);
    AlongY(a.Add(Point(k, 0.0)), l, sqrt);
  }

  /** Non-negative numbers with equal squares are equal. */
  lemma SquaresEqual(a: real, b: real)
    requires 0.0 <= a && 0.0 <= b && Square(a) == Square(b)
    ensures a == b
  {
    assert (a - b) * (a + b) == 0.0;
    ProductZero(a - b, a + b);
  }
}
