/** One billiard ball: its state as a value, the pure specification of one
    simulation tick, and the mutable `Ball` object whose `Update` method is
    proved to perform exactly that tick.

    The source compares `hypot(...)` against a constant in two places (the
    stopping test and the trail spacing test); the model makes those two
    comparisons on squares, and `SlowTick`, `MovingTick` and `TrailStep`
    prove that the squared tests are the source's tests. */
module Balls {
  import opened Geometry

  /** Everything a tick reads or writes: position, velocity, radius, the
      recorded trail and the odometer. */
  datatype BallState = BallState(
    x: real, y: real,
    vx: real, vy: real,
    radius: real,
    path: seq<Point>,
    distance: real)

  /** The trail is never empty and never longer than TRAIL_MAX points. */
  predicate WellFormed(s: BallState)
  {
    1 <= |s.path| <= TRAIL_MAX
  }

  /** The state of a freshly created ball: its trail is its own position and
      its odometer reads zero. */
  function Spawn(x: real, y: real, vx: real, vy: real, radius: real): (s: BallState)
    ensures WellFormed(s) && s.path == [Point(x, y)] && s.distance == 0.0
    ensures s.x == x && s.y == y && s.vx == vx && s.vy == vy && s.radius == radius
  {
    BallState(x, y, vx, vy, radius, [Point(x, y)], 0.0)
  }

  /** True when a ball this fast is stopped instead of moved. */
  predicate TooSlow(vx: real, vy: real)
  {
    Sq(vx) + Sq(vy) < Sq(MIN_VELOCITY)
  }

  /** True when `p` is far enough from the last trail point to be recorded. */
  predicate FarFrom(last: Point, p: Point)
  {
    Sq(last.x - p.x) + Sq(last.y - p.y) > Sq(TRAIL_SPACING)
  }

  /** The trail after the ball has moved to `p`: `p` is appended only when it
      lies more than TRAIL_SPACING from the last recorded point, and the
      oldest point is dropped once the trail grows past TRAIL_MAX. */
  function Record(path: seq<Point>, p: Point): (r: seq<Point>)
    requires |path| >= 1
    ensures 1 <= |r| <= |path| + 1
    ensures |path| <= TRAIL_MAX ==> |r| <= TRAIL_MAX
  {
    if FarFrom(path[|path| - 1], p) then
      var grown := path + [p];
      if |grown| > TRAIL_MAX then grown[1..] else grown
    else
      path
  }

  /** The factor both velocity components are multiplied by in one tick. */
  function Decay(dt: real, exp: real -> real): real
  {
    exp(-MU * dt)
  }

  /** One tick of length `dt`: a ball slower than MIN_VELOCITY is stopped;
      otherwise it moves one explicit Euler step, adds the step length to its
      odometer, records the new position on its trail and slows down by the
      friction factor. */
  function Advance(s: BallState, dt: real, hypot: (real, real) -> real, exp: real -> real): BallState
    requires |s.path| >= 1
  {
    if TooSlow(s.vx, s.vy) then
      s.(vx := 0.0, vy := 0.0)
    else
      var x, y := s.x + s.vx * dt, s.y + s.vy * dt;
      var decay := Decay(dt, exp);
      s.(x := x, y := y,
         distance := s.distance + hypot(x - s.x, y - s.y),
         path := Record(s.path, Point(x, y)),
         vx := s.vx * decay, vy := s.vy * decay)
  }

  /** The moving branch of `Advance`, written in terms of the new position,
      the step length, the new trail and the friction factor. */
  lemma MovedState(s: BallState, dt: real, hypot: (real, real) -> real, exp: real -> real,
                   x: real, y: real, step: real, trail: seq<Point>, decay: real)
    requires |s.path| >= 1 && !TooSlow(s.vx, s.vy)
    requires x == s.x + s.vx * dt && y == s.y + s.vy * dt
    requires step == hypot(x - s.x, y - s.y)
    requires trail == Record(s.path, Point(x, y)) && decay == exp(-MU * dt)
    ensures Advance(s, dt, hypot, exp)
         == BallState(x, y, s.vx * decay, s.vy * decay, s.radius, trail, s.distance + step)
  {
    var r := Advance(s, dt, hypot, exp);
    assert r.x == x && r.y == y;
    assert r.path == Record(s.path, Point(r.x, r.y));
  }

  /** The friction factor of a tick of non-negative length lies in (0, 1],
      and is below 1 for a tick of positive length. */
  lemma DecayBounds(dt: real, exp: real -> real)
    requires ExpBounds(exp) && dt >= 0.0
    ensures 0.0 < Decay(dt, exp) <= 1.0
    ensures dt > 0.0 ==> Decay(dt, exp) < 1.0
  {
    if dt > 0.0 {
      assert -MU * dt < 0.0;
    } else {
      assert -MU * dt == 0.0;
    }
  }

  /** The source's stopping test `hypot(vx, vy) < MIN_VELOCITY` is `TooSlow`. */
  lemma SlowIffBelowMinimum(hypot: (real, real) -> real, vx: real, vy: real)
    requires IsHypot(hypot)
    ensures hypot(vx, vy) < MIN_VELOCITY <==> TooSlow(vx, vy)
  {
    HypotCompare(hypot, vx, vy, MIN_VELOCITY);
  }

  /** The source's trail test `hypot(last - p) > 5` is `FarFrom`; a recorded
      point is appended exactly when it passes, and is then the new last
      point, the oldest point giving way once the trail is full. */
  lemma TrailStep(path: seq<Point>, p: Point, hypot: (real, real) -> real)
    requires IsHypot(hypot) && 1 <= |path| <= TRAIL_MAX
    ensures var last := path[|path| - 1];
      var far := hypot(last.x - p.x, last.y - p.y) > TRAIL_SPACING;
      var r := Record(path, p);
      (far ==> r[|r| - 1] == p && r == (path + [p])[|path| + 1 - |r|..]
                && |r| == if |path| == TRAIL_MAX then TRAIL_MAX else |path| + 1)
      && (!far ==> r == path)
  {
    var last := path[|path| - 1];
    HypotCompare(hypot, last.x - p.x, last.y - p.y, TRAIL_SPACING);
    var r := Record(path, p);
    if FarFrom(last, p) {
      if |path| == TRAIL_MAX {
        assert r == (path + [p])[1..];
      } else {
        assert r == path + [p];
      }
    }
  }

  /** A ball slower than MIN_VELOCITY stops on the spot: only its velocity
      changes, to exactly zero. */
  lemma SlowTick(s: BallState, dt: real, hypot: (real, real) -> real, exp: real -> real)
    requires IsHypot(hypot) && |s.path| >= 1
    requires hypot(s.vx, s.vy) < MIN_VELOCITY
    ensures Advance(s, dt, hypot, exp) == s.(vx := 0.0, vy := 0.0)
  {
    SlowIffBelowMinimum(hypot, s.vx, s.vy);
  }

  /** A ball at rest stays exactly where it is. */
  lemma RestIsFixed(s: BallState, dt: real, hypot: (real, real) -> real, exp: real -> real)
    requires |s.path| >= 1 && s.vx == 0.0 && s.vy == 0.0
    ensures Advance(s, dt, hypot, exp) == s
  {
    assert TooSlow(s.vx, s.vy);
  }

  /** A ball at least as fast as MIN_VELOCITY moves by velocity times dt,
      its odometer grows by the length of that step, and both velocity
      components are scaled by the same friction factor in (0, 1]. */
  lemma MovingTick(s: BallState, dt: real, hypot: (real, real) -> real, exp: real -> real)
    requires IsHypot(hypot) && ExpBounds(exp) && dt >= 0.0 && |s.path| >= 1
    requires hypot(s.vx, s.vy) >= MIN_VELOCITY
    ensures var r := Advance(s, dt, hypot, exp);
      && r.x == s.x + s.vx * dt && r.y == s.y + s.vy * dt
      && r.distance >= s.distance
      && Sq(r.distance - s.distance) == Sq(r.x - s.x) + Sq(r.y - s.y)
      && r.vx == Decay(dt, exp) * s.vx && r.vy == Decay(dt, exp) * s.vy
      && 0.0 < Decay(dt, exp) <= 1.0
      && r.path == Record(s.path, Point(r.x, r.y))
      && r.radius == s.radius
  {
    SlowIffBelowMinimum(hypot, s.vx, s.vy);
    DecayBounds(dt, exp);
    var x, y := s.x + s.vx * dt, s.y + s.vy * dt;
    var step := hypot(x - s.x, y - s.y);
    MovedState(s, dt, hypot, exp, x, y, step, Record(s.path, Point(x, y)), exp(-MU * dt));
  }

  /** Scaling both components of a vector by a factor in [0, 1] cannot make
      the vector longer. */
  lemma ScaledNotLonger(k: real, a: real, b: real)
    requires 0.0 <= k <= 1.0
    ensures Sq(k * a) + Sq(k * b) <= Sq(a) + Sq(b)
  {
    SqMul(k, a);
    SqMul(k, b);
    SqAtMost(k, 1.0);
    SqNonneg(k);
    var ka, kb, k2 := Sq(a), Sq(b), Sq(k);
    SqNonneg(a);
    SqNonneg(b);
    MulMono(ka, k2, 1.0);
    MulMono(kb, k2, 1.0);
  }

  /** Speed never grows during a tick of non-negative length. */
  lemma SpeedNeverGrows(s: BallState, dt: real, hypot: (real, real) -> real, exp: real -> real)
    requires IsHypot(hypot) && ExpBounds(exp) && dt >= 0.0 && |s.path| >= 1
    ensures var r := Advance(s, dt, hypot, exp);
      Sq(r.vx) + Sq(r.vy) <= Sq(s.vx) + Sq(s.vy)
  {
    if TooSlow(s.vx, s.vy) {
      SqNonneg(s.vx);
      SqNonneg(s.vy);
    } else {
      DecayBounds(dt, exp);
      ScaledNotLonger(Decay(dt, exp), s.vx, s.vy);
    }
  }

  /** A tick keeps the trail well formed, the radius fixed and the odometer
      from running backwards. */
  lemma AdvanceKeeps(s: BallState, dt: real, hypot: (real, real) -> real, exp: real -> real)
    requires IsHypot(hypot) && WellFormed(s)
    ensures var r := Advance(s, dt, hypot, exp);
      WellFormed(r) && r.radius == s.radius && r.distance >= s.distance
  {
    var r := Advance(s, dt, hypot, exp);
    if !TooSlow(s.vx, s.vy) {
      assert hypot(r.x - s.x, r.y - s.y) >= 0.0;
    }
  }

  /** A ball as the simulation mutates it. */
  class Ball {
    var x: real
    var y: real
    var vx: real
    var vy: real
    var path: seq<Point>
    var totalDistance: real
    const radius: real
    const name: string

    function State(): BallState
      reads this
    {
      BallState(x, y, vx, vy, radius, path, totalDistance)
    }

    predicate Valid()
      reads this
    {
      WellFormed(State())
    }

    constructor (x0: real, y0: real, vx0: real, vy0: real, radius: real, name: string)
      ensures Valid()
      ensures State() == Spawn(x0, y0, vx0, vy0, radius) && this.name == name
    {
      x, y := x0, y0;
      vx, vy := vx0, vy0;
      this.radius := radius;
      this.name := name;
      path := [Point(x0, y0)];
      totalDistance := 0.0;
    }

    /** Advances this ball by one tick of length `dt`. The new values are
        computed first and stored together at the end. */
    method Update(dt: real, hypot: (real, real) -> real, exp: real -> real)
      requires Valid()
      modifies this
      ensures Valid()
      ensures State() == Advance(old(State()), dt, hypot, exp)
    {
      ghost var s0 := State();
      if Sq(vx) + Sq(vy) < Sq(MIN_VELOCITY) {
        vx, vy := 0.0, 0.0;
        return;
      }
      var nx, ny := x + vx * dt, y + vy * dt;
      var step := hypot(nx - x, ny - y);
      var last := path[|path| - 1];
      var trail := path;
      if Sq(last.x - nx) + Sq(last.y - ny) > Sq(TRAIL_SPACING) {
        trail := trail + [Point(nx, ny)];
        if |trail| > TRAIL_MAX {
          trail := trail[1..];
        }
      }
      var decay := exp(-MU * dt);
      MovedState(s0, dt, hypot, exp, nx, ny, step, trail, decay);
      x, y, vx, vy, totalDistance, path := nx, ny, vx * decay, vy * decay, totalDistance + step, trail;
    }
  }

  /** The states of a list of balls, in list order. */
  function Snapshot(balls: seq<Ball>): (r: seq<BallState>)
    reads balls
    ensures |r| == |balls|
    ensures forall k :: 0 <= k < |balls| ==> r[k] == balls[k].State()
  {
    if |balls| == 0 then [] else Snapshot(balls[..|balls| - 1]) + [balls[|balls| - 1].State()]
  }

  /** No ball object appears twice in the list. */
  predicate Distinct(balls: seq<Ball>)
  {
    forall k, m :: 0 <= k < m < |balls| ==> balls[k] != balls[m]
  }
}
