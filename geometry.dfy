/** The constants of the billiard table and the plane geometry the physics
    relies on. The two floating-point library functions the simulation calls,
    `math.hypot` and `math.exp`, are not computed here: every operation takes
    them as parameters, and the predicates below state what the model assumes
    about them. */
module Geometry {

  /** Size of the play field: balls live in [0, WIDTH] x [0, HEIGHT]. */
  const WIDTH: real := 1200.0
  const HEIGHT: real := 1000.0
  /** Friction coefficient of the exponential velocity decay. */
  const MU: real := 0.4
  /** A ball slower than this is stopped outright. */
  const MIN_VELOCITY: real := 2.0
  /** A trail point is recorded only farther than this from the last one. */
  const TRAIL_SPACING: real := 5.0
  /** The trail keeps at most this many points. */
  const TRAIL_MAX: nat := 100
  /** Velocity given per unit of drag when the cue ball is launched. */
  const LAUNCH_SCALE: real := 6.0

  datatype Point = Point(x: real, y: real)

  /** `hypot` is the Euclidean norm of (a, b): never negative, and its
      square is a*a + b*b. */
  ghost predicate IsHypot(hypot: (real, real) -> real)
  {
    forall a: real, b: real :: hypot(a, b) >= 0.0 && hypot(a, b) * hypot(a, b) == a * a + b * b
  }

  /** What the model needs of `exp`: exp(0) is 1 and for a negative argument
      it lies strictly between 0 and 1. */
  ghost predicate ExpBounds(exp: real -> real)
  {
    exp(0.0) == 1.0 && forall t: real :: t < 0.0 ==> 0.0 < exp(t) < 1.0
  }

  function Abs(v: real): (r: real)
    ensures r >= 0.0 && (r == v || r == -v)
  {
    if v < 0.0 then -v else v
  }

  /** The square of a number, kept as a function of its own so that squares
      can be reasoned about as single terms. */
  function Sq(a: real): real
  {
    a * a
  }

  lemma SqNonneg(a: real)
    ensures Sq(a) >= 0.0
  {}

  /** Multiplying by a non-negative factor keeps an inequality. */
  lemma MulMono(k: real, a: real, b: real)
    requires k >= 0.0 && a <= b
    ensures k * a <= k * b
  {}

  lemma MulPos(a: real, b: real)
    requires a > 0.0 && b > 0.0
    ensures a * b > 0.0
  {}

  /** Squaring is strictly increasing on the non-negative numbers. */
  lemma SqLess(h: real, c: real)
    requires 0.0 <= h < c
    ensures Sq(h) < Sq(c)
  {
    var p, q := c - h, c + h;
    MulPos(p, q);
    assert p * q == Sq(c) - Sq(h);
  }

  lemma SqAtMost(h: real, c: real)
    requires 0.0 <= h <= c
    ensures Sq(h) <= Sq(c)
  {}

  /** Comparing non-negative numbers is the same as comparing their squares. */
  lemma SquareMonotone(h: real, c: real)
    requires h >= 0.0 && c >= 0.0
    ensures h < c <==> Sq(h) < Sq(c)
  {
    if h < c {
      SqLess(h, c);
    } else {
      SqAtMost(c, h);
    }
  }

  /** A comparison of a norm against a non-negative bound can be made on
      squares, with no square root. */
  lemma HypotCompare(hypot: (real, real) -> real, a: real, b: real, c: real)
    requires IsHypot(hypot) && c >= 0.0
    ensures hypot(a, b) < c <==> Sq(a) + Sq(b) < Sq(c)
    ensures hypot(a, b) > c <==> Sq(a) + Sq(b) > Sq(c)
  {
    var h := hypot(a, b);
    assert Sq(h) == Sq(a) + Sq(b);
    SquareMonotone(h, c);
    SquareMonotone(c, h);
  }

  /** A norm is determined by its square. */
  lemma HypotIs(hypot: (real, real) -> real, a: real, b: real, c: real)
    requires IsHypot(hypot) && c >= 0.0 && Sq(c) == Sq(a) + Sq(b)
    ensures hypot(a, b) == c
  {
    HypotCompare(hypot, a, b, c);
  }

  lemma DivMul(x: real, d: real)
    requires d != 0.0
    ensures (x / d) * d == x
  {}

  lemma SqMul(a: real, b: real)
    ensures Sq(a * b) == Sq(a) * Sq(b)
  {
    assert (a * b) * (a * b) == (a * a) * (b * b);
  }

  lemma SqNonzero(d: real)
    requires d != 0.0
    ensures Sq(d) != 0.0
  {
    DivMul(1.0, d);
    SqMul(1.0 / d, d);
    assert Sq(1.0 / d) * Sq(d) == 1.0;
  }

  lemma FactorOut(a: real, b: real, m: real, x: real, y: real)
    requires m != 0.0 && m == x + y && x == a * m && y == b * m
    ensures a + b == 1.0
  {}

  /** Dividing a vector by its (non-zero) length gives a unit vector. */
  lemma UnitNormal(hypot: (real, real) -> real, dx: real, dy: real, d: real)
    requires IsHypot(hypot) && d == hypot(dx, dy) && d > 0.0
    ensures Sq(dx / d) + Sq(dy / d) == 1.0
  {
    DivMul(dx, d);
    DivMul(dy, d);
    assert Sq(d) == Sq(dx) + Sq(dy);
    SqMul(dx / d, d);
    SqMul(dy / d, d);
    SqNonzero(d);
    FactorOut(Sq(dx / d), Sq(dy / d), Sq(d), Sq(dx), Sq(dy));
  }
}
