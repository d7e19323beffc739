/** The main loop's physics: the launch of the cue ball when the mouse is
    released, and one frame of simulation (every ball advanced, then the
    collision pass). */
module Simulation {
  import opened Geometry
  import opened Balls
  import opened Collisions

  /** The cue ball after a release of the mouse at `mouse`: it is shot away
      from the mouse with LAUNCH_SCALE times the drag vector, and its trail
      starts afresh at its current position. */
  function Launched(s: BallState, mouse: Point): BallState
  {
    s.(vx := (s.x - mouse.x) * LAUNCH_SCALE, vy := (s.y - mouse.y) * LAUNCH_SCALE, path := [Point(s.x, s.y)])
  }

  /** A launch keeps the ball where it is and well formed, points its
      velocity from the mouse to the ball, and makes its speed LAUNCH_SCALE
      times the drag length. */
  lemma LaunchAimsAway(s: BallState, mouse: Point, hypot: (real, real) -> real)
    requires IsHypot(hypot)
    ensures var r, dx, dy := Launched(s, mouse), s.x - mouse.x, s.y - mouse.y;
      && WellFormed(r) && r.path == [Point(s.x, s.y)]
      && r.x == s.x && r.y == s.y && r.radius == s.radius && r.distance == s.distance
      && r.vx * dy == r.vy * dx && r.vx * dx >= 0.0 && r.vy * dy >= 0.0
      && hypot(r.vx, r.vy) == LAUNCH_SCALE * hypot(dx, dy)
  {
    var dx, dy := s.x - mouse.x, s.y - mouse.y;
    var r := Launched(s, mouse);
    var h := hypot(dx, dy);
    assert Sq(h) == Sq(dx) + Sq(dy);
    SqMul(LAUNCH_SCALE, h);
    SqMul(dx, LAUNCH_SCALE);
    SqMul(dy, LAUNCH_SCALE);
    assert Sq(r.vx) + Sq(r.vy) == (Sq(dx) + Sq(dy)) * Sq(LAUNCH_SCALE);
    HypotIs(hypot, r.vx, r.vy, LAUNCH_SCALE * h);
    SqNonneg(dx);
    SqNonneg(dy);
  }

  /** A drag shorter than MIN_VELOCITY / LAUNCH_SCALE launches the ball too
      slowly: the next tick stops it where it is. */
  lemma ShortDragIsLost(s: BallState, mouse: Point, dt: real, hypot: (real, real) -> real, exp: real -> real)
    requires IsHypot(hypot)
    requires hypot(s.x - mouse.x, s.y - mouse.y) < MIN_VELOCITY / LAUNCH_SCALE
    ensures var r := Launched(s, mouse);
      Advance(r, dt, hypot, exp) == r.(vx := 0.0, vy := 0.0)
  {
    LaunchAimsAway(s, mouse, hypot);
    var r := Launched(s, mouse);
    SlowTick(r, dt, hypot, exp);
  }

  /** A drag of (10, 20) from the cue ball at (200, 300) shoots it with
      velocity (60, 120). */
  lemma LaunchExample()
    ensures var r := Launched(Spawn(200.0, 300.0, 0.0, 0.0, 15.0), Point(190.0, 280.0));
      r.vx == 60.0 && r.vy == 120.0 && r.x == 200.0 && r.y == 300.0 && r.path == [Point(200.0, 300.0)]
  {}

  /** Every ball advanced by one tick, in list order. */
  function AdvanceAll(s: seq<BallState>, dt: real, hypot: (real, real) -> real, exp: real -> real): (r: seq<BallState>)
    requires forall k :: 0 <= k < |s| ==> WellFormed(s[k])
    ensures |r| == |s| && forall k :: 0 <= k < |s| ==> WellFormed(s[k]) && r[k] == Advance(s[k], dt, hypot, exp)
  {
    seq(|s|, k requires 0 <= k < |s| => assert WellFormed(s[k]); Advance(s[k], dt, hypot, exp))
  }

  /** One frame: `update` on every ball, then `handle_collisions`. */
  function Frame(s: seq<BallState>, dt: real, hypot: (real, real) -> real, exp: real -> real): Outcome
    requires forall k :: 0 <= k < |s| ==> WellFormed(s[k])
  {
    Collide(AdvanceAll(s, dt, hypot, exp), hypot)
  }

  /** A frame keeps every trail well formed and every radius, never runs an
      odometer backwards, and never adds kinetic energy to the table. */
  lemma FrameKeeps(s: seq<BallState>, dt: real, hypot: (real, real) -> real, exp: real -> real)
    requires IsHypot(hypot) && ExpBounds(exp) && dt >= 0.0
    requires forall k :: 0 <= k < |s| ==> WellFormed(s[k])
    ensures var r := Frame(s, dt, hypot, exp).balls;
      && |r| == |s|
      && (forall k :: 0 <= k < |s| ==>
            WellFormed(r[k]) && r[k].radius == s[k].radius && r[k].distance >= s[k].distance)
      && Total(r, Energy) <= Total(s, Energy)
  {
    var a := AdvanceAll(s, dt, hypot, exp);
    forall k | 0 <= k < |s|
      ensures WellFormed(a[k]) && a[k].radius == s[k].radius && a[k].distance >= s[k].distance
      ensures Energy(a[k]) <= Energy(s[k])
    {
      AdvanceKeeps(s[k], dt, hypot, exp);
      SpeedNeverGrows(s[k], dt, hypot, exp);
    }
    TotalMono(a, s, Energy);
    CollideConserves(a, hypot);
  }

  /** The release of the mouse, in place. */
  method Launch(cue: Ball, mouse: Point)
    modifies cue
    ensures cue.Valid() && cue.State() == Launched(old(cue.State()), mouse)
  {
    cue.vx := (cue.x - mouse.x) * LAUNCH_SCALE;
    cue.vy := (cue.y - mouse.y) * LAUNCH_SCALE;
    cue.path := [Point(cue.x, cue.y)];
  }

  /** Whether every ball in the list is valid. */
  predicate AllValid(balls: seq<Ball>)
    reads balls
  {
    forall k :: 0 <= k < |balls| ==> balls[k].Valid()
  }

  /** Every ball's `update`, in list order, in place. */
  method UpdateAll(balls: seq<Ball>, dt: real, hypot: (real, real) -> real, exp: real -> real)
    requires Distinct(balls) && AllValid(balls)
    modifies balls
    ensures AllValid(balls)
    ensures Snapshot(balls) == AdvanceAll(old(Snapshot(balls)), dt, hypot, exp)
  {
    ghost var s0 := Snapshot(balls);
    var k := 0;
    while k < |balls|
      invariant 0 <= k <= |balls|
      invariant forall m :: 0 <= m < k ==> balls[m].Valid() && balls[m].State() == Advance(s0[m], dt, hypot, exp)
      invariant forall m :: k <= m < |balls| ==> balls[m].State() == s0[m]
    {
      balls[k].Update(dt, hypot, exp);
      k := k + 1;
    }
  }

  /** One frame of the main loop, in place. Returns false when the
      collision pass divided by zero. */
  method Tick(balls: seq<Ball>, dt: real, hypot: (real, real) -> real, exp: real -> real) returns (ok: bool)
    requires Distinct(balls) && AllValid(balls)
    modifies balls
    ensures var r := Frame(old(Snapshot(balls)), dt, hypot, exp);
      ok == r.Finished? && Snapshot(balls) == r.balls
    ensures AllValid(balls)
  {
    UpdateAll(balls, dt, hypot, exp);
    ok := HandleCollisions(balls, hypot);
  }
}
