# Plane geometry and motions of the robot exercise, in Dafny

This project models the geometry core of the robot exercise (`ex02`):

- **`Point`** is a 2D vector value. It supports componentwise addition, subtraction and scaling, the quarter-turn `normal`, `normalize`, the scalar product, the orthogonality and collinearity tests, and `Point.distance`.
- **`Line`** is a point plus a normalised direction. It has a `contains` test and the closed-form `intersection`, which raises `ValueError` on (nearly) parallel lines.
- **`CircularArc`'s centre helpers** intersect the lines perpendicular to the tangents. When those lines are nearly parallel (the same `1e-9` test as `Line.intersection`) they fall back to a midpoint.
- **`Translation`** is a straight move with a length and a unit direction.
- **`Rotation`** is a turn along an arc, built from two consecutive translations.

Every operation of these two files is pure: it returns a new value and changes nothing. So each Python class becomes a Dafny `datatype` with member functions:

- Each constructor that can fail becomes a static `Create` function returning a `Result`.
- A raised exception becomes `Err(ZeroDivisionError)` or `Err(ValueError)`.
- Coordinates are exact `real` numbers.
- `math.sqrt` is a function parameter `sqrt`. The predicate `IsSqrt(sqrt)` says it returns the non-negative square root of every non-negative number.
- `math.isclose` is modelled with its default tolerances (`rel_tol = 1e-9`, `abs_tol = 0`).
- `Rotation` uses an `Arc` that `ex02/geometry.py` does not define. Its radius and length come from a caller-supplied `measure` function.

Files:

- `maths.dfy`: `isclose`, `fabs`, squares and square roots, plus the exceptions as values.
- `geometry.dfy`: `Point`, `Line` and the centre helpers.
- `motion.dfy`: `Translation`, `Arc` and `Rotation`.

The main result is that `Line.intersection` is correct only because the line constructor normalises its direction. The model proves that, for unit directions, the closed-form point lies on both lines and is the only point they share (`Geometry.IntersectionIsTheCommonPoint`). It also proves that the same formula fails for other directions: along `(k, 0)` with `k * k != 1` it misses the second line (`Geometry.NonUnitDirectionMisses`).

## Model

The operations themselves (`Point.New`, `Normal`, `ScalarProduct`, `IsOrthogonal`, `IsCollinear`, `Add`, `Sub`, `Mul`, `Line.Contains`, `Translation.GetLength`, `IsParallelWith`, `Rotation.Create`, `NewFromTranslations`, `GetLength`, `IsOnTheSpot`) only compute, so their properties are stated by the lemmas of the table rather than by their own contracts:

- `NewRoundTrip` covers `New`.
- `NormalIsQuarterTurn` covers `Normal`.
- `ScalarProductSymmetric` covers `ScalarProduct`.
- `OrthogonalIffZeroProduct` covers `IsOrthogonal`.
- `CollinearIffCross`, `CollinearSymmetric` and `CollinearWithMultiple` cover `IsCollinear`.
- `AddSubInverse` covers `Add` and `Sub`, and `MulComposes` covers `Mul`.
- `LineContainsItsPoints`, `ContainsIffOnLine` and `CreateContains` cover `Contains`.
- `GetLengthIsDistance` covers `Translation.GetLength`.
- `ParallelReflexiveSymmetric`, `ParallelIffCross`, `ReversedIsParallel` and `SameDirectionIsParallel` cover `IsParallelWith`.
- `NewFromTranslationsWiring` and `RotationJoinsTranslations` cover the `Rotation` members.

| member | source | states |
|---|---|---|
| Maths.Fabs | ex02/geometry.py:103 | `math.fabs` gives a non-negative number equal to its argument or to its negation |
| Maths.IsCloseToZero | ex02/geometry.py:28-30 | `math.isclose(p, 0)` with the default tolerances holds exactly when `p` is 0, so `is_orthogonal` is an exact test |
| Maths.IsCloseToOne | ex02/geometry.py:103-104 | for `0 <= a <= 1`, `isclose(a, 1.)` holds exactly when `a >= 1 - 1e-9`: the tolerance of the parallel-lines test |
| Geometry.NewRoundTrip | ex02/geometry.py:13-15 | `Point.new` of a point's coordinates gives that point back, and reading the coordinates of `Point.new(xy)` gives `xy` back |
| Geometry.AddSubInverse | ex02/geometry.py:35-45 | `(p + q) - q == p`, `(p - q) + q == p`, and addition commutes |
| Geometry.MulComposes | ex02/geometry.py:47-52 | scaling by `k` then by `l` is scaling by `k * l`; scaling by 1 changes nothing |
| Geometry.NormalIsQuarterTurn | ex02/geometry.py:17-18 | the normal is orthogonal to the vector both ways and has the same squared length, and the normal of the normal is the reversed vector |
| Geometry.ScalarProductSymmetric | ex02/geometry.py:25-26 | the scalar product does not depend on the order of its operands |
| Geometry.OrthogonalIffZeroProduct | ex02/geometry.py:28-30 | `is_orthogonal` holds exactly when the scalar product is 0, and it is symmetric |
| Geometry.CollinearIffCross | ex02/geometry.py:32-33 | `a.is_collinear(b)` holds exactly when `a.x*b.y - a.y*b.x == 0` |
| Geometry.CollinearSymmetric | ex02/geometry.py:32-33 | `is_collinear` is symmetric |
| Geometry.CollinearWithMultiple | ex02/geometry.py:32-33 | a vector is collinear with itself and with each of its multiples, in both orders |
| Geometry.Point.Normalize | ex02/geometry.py:20-23 | raises `ZeroDivisionError` exactly when `d` is 0 and the point is the origin. Otherwise the result, scaled back by the divisor (`d`, or the Euclidean norm when `d` is 0), is the original point, and with `d == 0` it is a unit vector |
| Geometry.NormalizeKeepsDirection | ex02/geometry.py:20-23 | normalising a non-zero vector succeeds and gives a unit vector that is collinear with it and points the same way (positive scalar product) |
| Geometry.NormalizeZeroFails | ex02/geometry.py:20-23 | normalising the zero vector raises `ZeroDivisionError` |
| Geometry.Point.Distance | ex02/geometry.py:65-69 | the distance is non-negative and its square is `dx*dx + dy*dy` |
| Geometry.DistanceZeroIffSame | ex02/geometry.py:65-69 | the distance is 0 exactly when the two points coincide |
| Geometry.DistanceSymmetric | ex02/geometry.py:65-69 | `distance(a, b) == distance(b, a)` |
| Geometry.Line.Create | ex02/geometry.py:79-81 | building a line raises `ZeroDivisionError` exactly when the direction is zero. Otherwise it keeps the point, and its direction is a unit vector that gives the given direction when scaled by that direction's norm |
| Geometry.UnitLine | ex02/geometry.py:79-81 | a line built from a unit direction keeps that direction unchanged |
| Geometry.LineContainsItsPoints | ex02/geometry.py:83-87 | a line contains its own point and every `point + k * vector` |
| Geometry.ContainsIffOnLine | ex02/geometry.py:83-87 | on a line with a non-zero direction, `contains(p)` holds exactly when `p == point + k * vector` for some `k` |
| Geometry.CreateContains | ex02/geometry.py:79-87 | a line built from `point` and a non-zero `vector` contains `p` exactly when `p - point` is collinear with `vector` as given |
| Geometry.Line.Intersection | ex02/geometry.py:89-108 | `intersection` raises `ValueError`, and only `ValueError`, exactly when the absolute cosine of the two directions is within `1e-9` (relative) of 1 |
| Geometry.IntersectionIsTheCommonPoint | ex02/geometry.py:89-108 | for unit directions, a successful intersection lies on both lines, and a point lies on both lines exactly when it is that intersection |
| Geometry.NonUnitDirectionMisses | ex02/geometry.py:89-108 | the closed form needs unit directions: the line through the origin along `(k, 0)` with `k * k != 1` and the line through `(1, 0)` along `(0, 1)` both contain `(1, 0)`, yet `intersection` returns `(k * k, 0)`, which the second line does not contain |
| Geometry.ExampleNonUnitDirectionMisses | ex02/geometry.py:89-108 | with the direction `(2, 0)` the formula returns `(4, 0)`, off the second line |
| Geometry.OrthogonalIntersection | ex02/geometry.py:89-108 | for orthogonal directions `intersection` succeeds and steps from the first line's point by the offset's component along its direction |
| Geometry.ParallelLinesFail | ex02/geometry.py:79-104 | lines built from collinear non-zero directions, same or opposite, make `intersection` raise `ValueError` |
| Geometry.IntersectionWithEachTangent | ex02/geometry.py:151-156 | raises `ZeroDivisionError` exactly when a tangent is zero. For non-zero tangents it raises `ValueError` exactly when their absolute cosine is within `1e-9` (relative) of 1 (`NearlyParallel`), which includes collinear tangents. A successful result is on the radius at `p0` and on the radius at `p1` (orthogonal to each tangent there) |
| Geometry.RadiiMeetOnlyAtCenter | ex02/geometry.py:151-156 | for non-zero tangents that are not nearly parallel the intersection succeeds, and a point is on both radii exactly when it is that intersection |
| Geometry.CenterWithEachTangent | ex02/geometry.py:143-148 | raises `ZeroDivisionError` exactly when a tangent is zero; the `ValueError` of parallel radii is not raised. For non-zero tangents that are not nearly parallel the centre is on both radii; for nearly parallel (and for collinear) ones it is exactly the midpoint of `p0` and `p1` |
| Geometry.CenterWithTangent | ex02/geometry.py:133-140 | raises `ZeroDivisionError` exactly when the tangent is zero or `start == end`. The centre is equidistant from `start` and `end`. When the tangent is not nearly parallel to the chord the centre is on the radius at `start` and on the chord's perpendicular bisector; when it is nearly parallel (or collinear) the centre is exactly the chord's midpoint |
| Geometry.CenterIsEquidistant | ex02/geometry.py:133-140 | for a non-zero tangent and distinct ends the centre exists and `distance(center, start) == distance(center, end)` |
| Geometry.CenterOnRadiusAndBisector | ex02/geometry.py:133-140 | for a non-zero tangent not nearly parallel to a non-zero chord, a point is on the radius at `start` and on the chord's perpendicular bisector exactly when it is the centre the helper returns |
| Geometry.CenterAwayFromChord | ex02/geometry.py:133-140 | when `2 * (tangent . chord)^2 <= NormSq(tangent) * NormSq(chord)` (the tangent is at least 45 degrees away from the chord's direction, either way), the point on the radius at `start` and on the bisector is the centre |
| Geometry.CenterOnBothRadii | ex02/geometry.py:143-148 | for non-zero tangents that are not nearly parallel, a point is on both radii exactly when it is the centre the helper returns |
| Geometry.CrossedTangentsCenter | ex02/geometry.py:143-148 | tangents `(k, k)` at `(-r, 0)` and `(k, -k)` at `(r, 0)`, with `k` non-zero, give the centre `(0, -r)` |
| Geometry.DiameterArcCenter | ex02/geometry.py:133-140 | an arc from `(-r, 0)` to `(r, 0)` with tangent `(0, k)`, `r` and `k` non-zero, is centred at the origin |
| Geometry.QuarterArcCenter | ex02/geometry.py:133-140 | an arc from `(r, 0)` to `(0, r)` with tangent `(0, k)`, `r` and `k` non-zero (either sense), is centred at the origin |
| Geometry.ExampleSimpleArcCenter | test/test_geometry.py:115-121 | the arc from `(-1, 0)` to `(1, 0)` with tangent `(0, 1)` is centred at `(0, 0)` |
| Geometry.Example45DegCenter | test/test_geometry.py:124-130 | the arc from `(1, 0)` to `(0, 1)` with tangent `(0, 1)` is centred at `(0, 0)` |
| Geometry.ExampleReverse45DegCenter | test/test_geometry.py:135-140 | the arc from `(1, 0)` to `(0, 1)` with tangent `(0, -1)` is centred at `(0, 0)` |
| Geometry.ExampleOppositeTangentsCenter | test/test_geometry.py:157-160 | tangents `(0, 1)` at `(-1, 0)` and `(0, -1)` at `(1, 0)` give the centre `(0, 0)`, the midpoint (the test calls the helper `compute_center_from_both_tangents`; the code names it `compute_center_with_each_tangent`) |
| Geometry.ExampleCrossedTangentsCenter | test/test_geometry.py:163-166 | tangents `(1, 1)` at `(-1, 0)` and `(1, -1)` at `(1, 0)` give the centre `(0, -1)` |
| Geometry.ExampleBisectorMeetsVertical | test/test_find_center.py:12-22 | `(0, 1) + (1, 0)` normalises, `Line` keeps both unit directions, and the vertical through `(0, 1)` meets the line through `(3, 5)` along that direction at `(0, 2)` |
| Geometry.ExampleContains | test/test_geometry.py:55-58 | `Line((1, 2), (1, 1))` contains `(2, 3)` |
| Geometry.AxesMeet | ex02/geometry.py:89-108 | the lines with unit directions `(1, 0)` and `(0, 1)` through the origin meet at `(0, 0)` |
| Geometry.ExampleAxesMeet | test/test_geometry.py:61-64 | `Line((0, 0), (1, 0))` and `Line((0, 0), (0, 1))` keep their directions unchanged, and they meet at `(0, 0)` |
| Geometry.ExampleDiagonalMeetsHorizontal | test/test_geometry.py:67-72 | `Line((3, 1), (1, 1))` meets `Line((0, 2), (1, 0))` at `(4, 2)` |
| Geometry.ExampleParallel | test/test_geometry.py:75-80 | two vertical lines make `intersection` raise `ValueError` |
| Motion.Translation.Create | ex02/motion.py:6-10 | raises `ZeroDivisionError` exactly when `start == end`. Otherwise it stores `start` and `end` unchanged, with a positive length whose square is the squared distance, and a unit direction that gives `end - start` when scaled by the length |
| Motion.GetLengthIsDistance | ex02/motion.py:12-16 | `get_length()` returns `Point.distance(start, end)`, which is positive |
| Motion.VectorPointsToEnd | ex02/motion.py:10 | the direction is a unit vector collinear with `end - start`, and its scalar product with `end - start` is the length (same sense) |
| Motion.NoTranslationInPlace | ex02/motion.py:10 | a translation from a point to itself raises `ZeroDivisionError` |
| Motion.ParallelReflexiveSymmetric | ex02/motion.py:18-19 | `is_parallel_with` is reflexive and symmetric |
| Motion.ParallelIffCross | ex02/motion.py:18-19 | two translations are parallel exactly when the cross product of their displacements is 0 |
| Motion.ReversedIsParallel | ex02/motion.py:18-19 | a translation and its reverse are parallel |
| Motion.SameDirectionIsParallel | ex02/motion.py:18-19 | translations along the same direction are parallel, whatever their start and their (non-zero) length |
| Motion.TranslationAlong | ex02/motion.py:6-10 | a translation whose displacement is `len > 0` steps of a unit vector `u` has length `len` and direction `u` |
| Motion.Arc.Create | ex02/motion.py:25 | the arc keeps its ends and tangents, and takes its radius and length from the measure of exactly those four arguments |
| Motion.NewFromTranslationsWiring | ex02/motion.py:27-39 | `new_from_translations` builds the arc from `previous.end`, `move.start`, `previous.vector`, `move.vector` in that order. `get_length` is that arc's length, and `is_on_the_spot` holds exactly when its radius is 0 |
| Motion.RotationJoinsTranslations | ex02/motion.py:37-39 | between translations `a -> b` and `b -> c` the rotation starts and ends at `b`. Its tangents are unit vectors along `b - a` and `c - b`, pointing the same way |
| Motion.AxisCorner | ex02/motion.py:37-39 | a move of `k` along the x axis followed by a move of `l` along the y axis gives a rotation at the corner, from direction `(1, 0)` to direction `(0, 1)` (the repository's `(0, 0) -> (10, 0) -> (10, 10)` example, for any start and lengths) |

## Left out

- Floating point: coordinates are exact reals, so rounding is not modelled. `math.isclose` keeps its relative tolerance of `1e-9`, where the code uses it on a computed cosine (ex02/geometry.py:103).
- `math.sqrt` is library code. It is a parameter characterised by `IsSqrt`, not an implementation.
- `Point(x)` with no `y` fails in `float(None)`; the model's points always have two coordinates. The `float()` conversion of other argument types is not modelled.
- `__add__`, `__sub__` and `__mul__` return `NotImplemented` for operands of the wrong type. Dafny's types rule those calls out.
- `Point.__eq__` with its `abs_tol=1e-9` and tuple comparison, `Point.__repr__` and `Line.__repr__` (ex02/geometry.py:54-63, 110-111): the model uses exact equality and does not format text.
- `Segment` (ex02/geometry.py:72-75) is a bare record with no behaviour.
- `CircularArc.__init__`, `CircularArc.compute_center` and `CircularArc.find_angle_and_chord_vector` (ex02/geometry.py:115-130, 159-173) compute angles with `asin`, `cos` and `acos`, which exact real arithmetic cannot express.
- `Arc` is not defined in ex02/geometry.py, so `from ex02.geometry import Point, Arc` (ex02/motion.py:1) raises `ImportError` and ex02/motion.py cannot be imported as written. The model assumes the import succeeds: `Arc` takes its radius and length from the `measure` parameter, and whatever a real class would raise is not modelled.
- `Translation._get_length` is folded into `Translation.Create`: it is called once, from the constructor.
- ex02/robot.py (robot components, wheels, engine, motion controller) and ex02/telecom.py (command enums and message exchange) are not part of this model. robot.py does not parse as written. `Arranger`, `Navigator` and `MotionController` are imported from `ex02.robot` by test/test_arranger.py:4, test/test_navigator.py:4 and test/test_motion_controller.py:5; they have no code in the two modelled files.
- The centre helpers follow the code:
  - `compute_center_with_tangent` catches only `ValueError` (ex02/geometry.py:136-139), so a zero chord (`start == end`) raises `ZeroDivisionError` from `normalize` instead of falling back to the midpoint.
  - A zero tangent raises `ZeroDivisionError` the same way in both helpers (ex02/geometry.py:136-139, 144-147).
  - `compute_center_with_each_tangent` (ex02/geometry.py:143-148) does not check that its centre is equidistant from `p0` and `p1`, and in general it is not.
