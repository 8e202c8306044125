/** The parts of Python's `math` module and exception machinery that
    ex02/geometry.py and ex02/motion.py rely on. */
module Maths {

  /** Default relative tolerance of `math.isclose`. */
  const RelTol: real := 0.000000001

  /** Default absolute tolerance of `math.isclose`. */
  const AbsTol: real := 0.0

  /** `math.fabs`. */
  function Fabs(a: real): (r: real)
    ensures 0.0 <= r && (r == a || r == -a)
  {
    if a < 0.0 then -a else a
  }

  /** `math.isclose(a, b)` with its default tolerances, in CPython's order of
      tests: equal values, or a difference within `RelTol` of either
      argument, or within `AbsTol`. */
  predicate IsClose(a: real, b: real) {
    a == b
    || Fabs(b - a) <= Fabs(RelTol * b)
    || Fabs(b - a) <= Fabs(RelTol * a)
    || Fabs(b - a) <= AbsTol
  }

  /** With no absolute tolerance, closeness to zero is exact equality. */
  lemma IsCloseToZero(a: real)
    ensures IsClose(a, 0.0) <==> a == 0.0
  {
  }

  /** For a value in [0, 1], closeness to 1 means lying within `RelTol` of it. */
  lemma IsCloseToOne(a: real)
    requires 0.0 <= a <= 1.0
    ensures IsClose(a, 1.0) <==> 1.0 - RelTol <= a
  {
  }

  /** The square of a real. Stating squares through this function keeps
      the solver's reasoning about them linear. */
  function Square(a: real): real {
    a * a
  }

  /** A non-zero real has a positive square. */
  lemma SquarePositive(a: real)
    requires a != 0.0
    ensures Square(a) > 0.0
  {
    assert a * a / a == a;
  }

  /** A product is zero only when a factor is. */
  lemma ProductZero(a: real, b: real)
    requires a * b == 0.0
    ensures a == 0.0 || b == 0.0
  {
    if a != 0.0 {
      assert a * b / a == b;
    }
  }

  /** `a / n` multiplied back by `n` gives `a`. */
  lemma DivideBack(a: real, n: real)
    requires n != 0.0
    ensures (a / n) * n == a
  {
  }

  /** A number that `n` scales to `x` is `x / n`. */
  lemma DivideExact(q: real, x: real, n: real)
    requires n != 0.0 && q * n == x
    ensures q == x / n
  {
  }

  /** A non-positive product with a positive factor has a non-positive
      other factor. */
  lemma NonPositiveFactor(a: real, p: real)
    requires 0.0 < p && a * p <= 0.0
    ensures a <= 0.0
  {
  }

  lemma SquareOfProduct(a: real, b: real)
    ensures Square(a * b) == Square(a) * Square(b)
  {
  }

  /** Cancels a non-zero common factor `m` from `a * m + b * m == m`; the
      right-hand side is passed as `t` so that the solver keeps it linear. */
  lemma CancelSum(a: real, b: real, m: real, t: real)
    requires m != 0.0 && a * m + b * m == t && t == m
    ensures a + b == 1.0
  {
    assert (a + b - 1.0) * m == a * m + b * m - t;
    ProductZero(a + b - 1.0, m);
  }

  lemma MulOnes(a: real, b: real)
    requires a == 1.0 && b == 1.0
    ensures a * b == 1.0
  {
  }

  lemma MulOne(a: real, b: real)
    requires b == 1.0
    ensures a * b == a
  {
  }

  /** With `num == y * x` and `den == x * x`, the quotient times `x` is `y`. */
  lemma DivCancel(y: real, x: real, num: real, den: real, q: real)
    requires x != 0.0 && den != 0.0 && num == y * x && den == Square(x) && q == num / den
    ensures q * x == y
  {
    SquarePositive(x);
    assert q * den == num;
    assert (q * x - y) * x == q * den - num;
    ProductZero(q * x - y, x);
  }

  /** What the model uses of `math.sqrt`, which the caller supplies as a
      function value: every non-negative argument has a non-negative
      square root. */
  ghost predicate IsSqrt(sqrt: real -> real) {
    forall x: real :: 0.0 <= x ==> 0.0 <= sqrt(x) && Square(sqrt(x)) == x
  }

  /** The square root of one is one. */
  lemma SqrtOfOne(sqrt: real -> real)
    requires IsSqrt(sqrt)
    ensures sqrt(1.0) == 1.0
  {
    var r := sqrt(1.0);
    assert 0.0 <= r && Square(r) == 1.0;
    assert (r - 1.0) * (r + 1.0) == 0.0;
    ProductZero(r - 1.0, r + 1.0);
  }

  /** Squaring is increasing on the non-negative reals. */
  lemma SquareMonotonic(a: real, b: real)
    requires 0.0 <= a <= b
    ensures Square(a) <= Square(b)
  {
    assert Square(b) - Square(a) == (b - a) * (b + a);
    assert 0.0 <= (b - a) * (b + a) by {
      if b - a != 0.0 {
        assert (b - a) * (b + a) / (b - a) == b + a;
      }
    }
  }

  /** The square root is zero exactly at zero. */
  lemma SqrtZeroIffZero(sqrt: real -> real, x: real)
    requires IsSqrt(sqrt) && 0.0 <= x
    ensures 0.0 <= sqrt(x) && Square(sqrt(x)) == x
    ensures sqrt(x) == 0.0 <==> x == 0.0
  {
    var r := sqrt(x);
    assert 0.0 <= r && Square(r) == x;
    if r != 0.0 {
      SquarePositive(r);
    }
  }
}

/** Python exceptions raised by the core, as values. */
module Failures {

  /** `ZeroDivisionError` comes from a float division by zero (normalising a
      zero vector); `ValueError` is raised by `Line.intersection` on parallel
      lines. */
  datatype Exception = ZeroDivisionError | ValueError

  /** The outcome of an operation that may raise. */
  datatype Result<+T> = Ok(value: T) | Err(error: Exception)
}
