/** `handle_collisions`: a wall pass that keeps every ball on the table,
    followed by a pass over every pair i < j in list order that pushes
    overlapping balls apart and exchanges their velocity components along the
    line of centres. The pure functions specify both passes over a list of
    ball states; `HandleCollisions` performs them on the mutable balls. */
module Collisions {
  import opened Geometry
  import opened Balls

  // ---------------------------------------------------------------- walls

  /** The four wall checks applied in the source's order: left, right, top,
      bottom. A ball past a wall is put back against it and the velocity
      component towards that wall is turned away from it. */
  function Bounce(s: BallState): BallState
  {
    var s1 := if s.x - s.radius < 0.0 then s.(x := s.radius, vx := Abs(s.vx)) else s;
    var s2 := if s1.x + s1.radius > WIDTH then s1.(x := WIDTH - s1.radius, vx := -Abs(s1.vx)) else s1;
    var s3 := if s2.y - s2.radius < 0.0 then s2.(y := s2.radius, vy := Abs(s2.vy)) else s2;
    if s3.y + s3.radius > HEIGHT then s3.(y := HEIGHT - s3.radius, vy := -Abs(s3.vy)) else s3
  }

  /** A ball that fits on the table ends up on it. */
  lemma BounceInBounds(s: BallState)
    requires 2.0 * s.radius <= WIDTH && 2.0 * s.radius <= HEIGHT
    ensures var r := Bounce(s);
      s.radius <= r.x <= WIDTH - s.radius && s.radius <= r.y <= HEIGHT - s.radius
  {}

  /** After a contact with the left (top) wall the horizontal (vertical)
      velocity points into the table, after a contact with the right
      (bottom) wall it points back; an axis with no contact keeps its
      coordinate and velocity component; speeds along each axis are kept,
      and nothing but position and velocity changes. */
  lemma BounceReflects(s: BallState)
    requires 2.0 * s.radius <= WIDTH && 2.0 * s.radius <= HEIGHT
    ensures var r := Bounce(s);
      && (s.x - s.radius < 0.0 ==> r.x == s.radius && r.vx >= 0.0)
      && (s.x + s.radius > WIDTH ==> r.x == WIDTH - s.radius && r.vx <= 0.0)
      && (s.y - s.radius < 0.0 ==> r.y == s.radius && r.vy >= 0.0)
      && (s.y + s.radius > HEIGHT ==> r.y == HEIGHT - s.radius && r.vy <= 0.0)
      && (s.radius <= s.x <= WIDTH - s.radius ==> r.x == s.x && r.vx == s.vx)
      && (s.radius <= s.y <= HEIGHT - s.radius ==> r.y == s.y && r.vy == s.vy)
      && Abs(r.vx) == Abs(s.vx) && Abs(r.vy) == Abs(s.vy)
      && r.radius == s.radius && r.path == s.path && r.distance == s.distance
  {}

  /** A ball already within the walls is not touched. */
  lemma BounceKeepsInside(s: BallState)
    requires s.radius <= s.x <= WIDTH - s.radius && s.radius <= s.y <= HEIGHT - s.radius
    ensures Bounce(s) == s
  {}

  /** Bouncing twice is bouncing once, whatever the radius. */
  lemma BounceIdempotent(s: BallState)
    ensures Bounce(Bounce(s)) == Bounce(s)
  {
    if 2.0 * s.radius <= WIDTH && 2.0 * s.radius <= HEIGHT {
      BounceInBounds(s);
      BounceKeepsInside(Bounce(s));
    }
  }

  /** The wall pass over the whole list. */
  function WallPass(s: seq<BallState>): (r: seq<BallState>)
    ensures |r| == |s| && forall k :: 0 <= k < |s| ==> r[k] == Bounce(s[k])
  {
    seq(|s|, k requires 0 <= k < |s| => Bounce(s[k]))
  }

  lemma WallPassIdempotent(s: seq<BallState>)
    ensures WallPass(WallPass(s)) == WallPass(s)
  {
    forall k | 0 <= k < |s|
      ensures WallPass(WallPass(s))[k] == WallPass(s)[k]
    {
      BounceIdempotent(s[k]);
    }
  }

  // ---------------------------------------------------------------- pairs

  /** Velocity component along the unit normal (nx, ny). */
  function Normal(vx: real, vy: real, nx: real, ny: real): real
  {
    nx * vx + ny * vy
  }

  /** Velocity component along the tangent (-ny, nx). */
  function Tangent(vx: real, vy: real, nx: real, ny: real): real
  {
    -ny * vx + nx * vy
  }

  /** Both balls moved half the overlap apart along the normal. */
  function Push(b1: BallState, b2: BallState, nx: real, ny: real, overlap: real): (BallState, BallState)
  {
    (b1.(x := b1.x - nx * overlap / 2.0, y := b1.y - ny * overlap / 2.0),
     b2.(x := b2.x + nx * overlap / 2.0, y := b2.y + ny * overlap / 2.0))
  }

  /** The equal-mass elastic exchange: each ball takes the other's normal
      component and keeps its own tangential one. */
  function Exchange(b1: BallState, b2: BallState, nx: real, ny: real): (BallState, BallState)
  {
    var v1n, v1t := Normal(b1.vx, b1.vy, nx, ny), Tangent(b1.vx, b1.vy, nx, ny);
    var v2n, v2t := Normal(b2.vx, b2.vy, nx, ny), Tangent(b2.vx, b2.vy, nx, ny);
    (b1.(vx := v2n * nx - v1t * ny, vy := v2n * ny + v1t * nx),
     b2.(vx := v1n * nx - v2t * ny, vy := v1n * ny + v2t * nx))
  }

  /** What one step of the pair loop does to a pair of balls. */
  datatype PairResult =
    | NoContact
      /** The centres coincide: the source divides by zero here. */
    | ZeroDistance
    | Resolved(b1: BallState, b2: BallState)

  /** Push and exchange along the unit normal (nx, ny) by the given
      overlap. */
  function Separate(b1: BallState, b2: BallState, nx: real, ny: real, overlap: real): (BallState, BallState)
  {
    var pushed := Push(b1, b2, nx, ny, overlap);
    Exchange(pushed.0, pushed.1, nx, ny)
  }

  /** One step of the pair loop on two states: no contact, the division by
      zero, or the separated pair. The normal points from the first centre
      to the second. */
  function ResolvePair(b1: BallState, b2: BallState, hypot: (real, real) -> real): PairResult
  {
    var dx, dy := b2.x - b1.x, b2.y - b1.y;
    var dist := hypot(dx, dy);
    if dist < b1.radius + b2.radius then
      if dist == 0.0 then
        ZeroDistance
      else
        var q := Separate(b1, b2, dx / dist, dy / dist, (b1.radius + b2.radius) - dist);
        Resolved(q.0, q.1)
    else
      NoContact
  }

  /** Rotating a velocity into the (normal, tangent) frame and back scales
      it by the squared length u of the normal. */
  lemma Recompose(vx: real, vy: real, nx: real, ny: real)
    ensures Normal(vx, vy, nx, ny) * nx - Tangent(vx, vy, nx, ny) * ny == vx * (Sq(nx) + Sq(ny))
    ensures Normal(vx, vy, nx, ny) * ny + Tangent(vx, vy, nx, ny) * nx == vy * (Sq(nx) + Sq(ny))
  {}

  /** The components of a vector rebuilt from normal part n and tangential
      part t are n and t again, scaled by u. */
  lemma ComponentsOfRebuilt(n: real, t: real, nx: real, ny: real, wx: real, wy: real)
    requires wx == n * nx - t * ny && wy == n * ny + t * nx
    ensures Normal(wx, wy, nx, ny) == n * (Sq(nx) + Sq(ny))
    ensures Tangent(wx, wy, nx, ny) == t * (Sq(nx) + Sq(ny))
  {}

  /** The squared length of a rebuilt vector. */
  lemma LengthOfRebuilt(n: real, t: real, nx: real, ny: real, wx: real, wy: real)
    requires wx == n * nx - t * ny && wy == n * ny + t * nx
    ensures Sq(wx) + Sq(wy) == (Sq(n) + Sq(t)) * (Sq(nx) + Sq(ny))
  {}

  /** The squared length of a vector in the rotated frame. */
  lemma LengthOfComponents(vx: real, vy: real, nx: real, ny: real)
    ensures Sq(Normal(vx, vy, nx, ny)) + Sq(Tangent(vx, vy, nx, ny)) == (Sq(vx) + Sq(vy)) * (Sq(nx) + Sq(ny))
  {}

  lemma UnitScale(a: real, u: real)
    requires u == 1.0
    ensures a * u == a
  {}

  /** With a unit normal, the exchange swaps the normal components of the
      two velocities and keeps each tangential component. */
  lemma ExchangeComponents(b1: BallState, b2: BallState, nx: real, ny: real)
    requires Sq(nx) + Sq(ny) == 1.0
    ensures var q := Exchange(b1, b2, nx, ny);
      && Normal(q.0.vx, q.0.vy, nx, ny) == Normal(b2.vx, b2.vy, nx, ny)
      && Normal(q.1.vx, q.1.vy, nx, ny) == Normal(b1.vx, b1.vy, nx, ny)
      && Tangent(q.0.vx, q.0.vy, nx, ny) == Tangent(b1.vx, b1.vy, nx, ny)
      && Tangent(q.1.vx, q.1.vy, nx, ny) == Tangent(b2.vx, b2.vy, nx, ny)
      && q.0 == b1.(vx := q.0.vx, vy := q.0.vy) && q.1 == b2.(vx := q.1.vx, vy := q.1.vy)
  {
    var u := Sq(nx) + Sq(ny);
    var v1n, v1t := Normal(b1.vx, b1.vy, nx, ny), Tangent(b1.vx, b1.vy, nx, ny);
    var v2n, v2t := Normal(b2.vx, b2.vy, nx, ny), Tangent(b2.vx, b2.vy, nx, ny);
    var q := Exchange(b1, b2, nx, ny);
    ComponentsOfRebuilt(v2n, v1t, nx, ny, q.0.vx, q.0.vy);
    ComponentsOfRebuilt(v1n, v2t, nx, ny, q.1.vx, q.1.vy);
    UnitScale(v1n, u);
    UnitScale(v2n, u);
    UnitScale(v1t, u);
    UnitScale(v2t, u);
  }

  /** With a unit normal, the exchange keeps the total momentum of the pair
      (the balls have equal mass). */
  lemma ExchangeMomentum(b1: BallState, b2: BallState, nx: real, ny: real)
    requires Sq(nx) + Sq(ny) == 1.0
    ensures var q := Exchange(b1, b2, nx, ny);
      q.0.vx + q.1.vx == b1.vx + b2.vx && q.0.vy + q.1.vy == b1.vy + b2.vy
  {
    var u := Sq(nx) + Sq(ny);
    Recompose(b1.vx, b1.vy, nx, ny);
    Recompose(b2.vx, b2.vy, nx, ny);
    UnitScale(b1.vx, u);
    UnitScale(b1.vy, u);
    UnitScale(b2.vx, u);
    UnitScale(b2.vy, u);
  }

  /** With a unit normal, the exchange keeps the total kinetic energy of the
      pair. */
  lemma ExchangeEnergy(b1: BallState, b2: BallState, nx: real, ny: real)
    requires Sq(nx) + Sq(ny) == 1.0
    ensures var q := Exchange(b1, b2, nx, ny);
      Sq(q.0.vx) + Sq(q.0.vy) + Sq(q.1.vx) + Sq(q.1.vy)
      == Sq(b1.vx) + Sq(b1.vy) + Sq(b2.vx) + Sq(b2.vy)
  {
    var u := Sq(nx) + Sq(ny);
    var v1n, v1t := Normal(b1.vx, b1.vy, nx, ny), Tangent(b1.vx, b1.vy, nx, ny);
    var v2n, v2t := Normal(b2.vx, b2.vy, nx, ny), Tangent(b2.vx, b2.vy, nx, ny);
    var q := Exchange(b1, b2, nx, ny);
    LengthOfRebuilt(v2n, v1t, nx, ny, q.0.vx, q.0.vy);
    LengthOfRebuilt(v1n, v2t, nx, ny, q.1.vx, q.1.vy);
    LengthOfComponents(b1.vx, b1.vy, nx, ny);
    LengthOfComponents(b2.vx, b2.vy, nx, ny);
    var e1, e2 := Sq(v2n) + Sq(v1t), Sq(v1n) + Sq(v2t);
    var f1, f2 := Sq(b1.vx) + Sq(b1.vy), Sq(b2.vx) + Sq(b2.vy);
    UnitScale(e1, u);
    UnitScale(e2, u);
    UnitScale(f1, u);
    UnitScale(f2, u);
  }

  /** Whether a pair is in contact is decided on squared distances: the
      pair is pushed apart exactly when the centres are closer than the sum
      of the radii, and the division by a zero distance happens exactly when
      the centres coincide and the radii add up to something positive. */
  lemma ContactIffOverlap(b1: BallState, b2: BallState, hypot: (real, real) -> real)
    requires IsHypot(hypot)
    ensures var dx, dy, reach := b2.x - b1.x, b2.y - b1.y, b1.radius + b2.radius;
      var r := ResolvePair(b1, b2, hypot);
      && (r.NoContact? <==> reach <= 0.0 || Sq(dx) + Sq(dy) >= Sq(reach))
      && (r.ZeroDistance? <==> reach > 0.0 && dx == 0.0 && dy == 0.0)
      && (r.Resolved? <==> reach > 0.0 && 0.0 < Sq(dx) + Sq(dy) < Sq(reach))
  {
    var dx, dy, reach := b2.x - b1.x, b2.y - b1.y, b1.radius + b2.radius;
    var dist := hypot(dx, dy);
    assert Sq(dist) == Sq(dx) + Sq(dy);
    if reach >= 0.0 {
      HypotCompare(hypot, dx, dy, reach);
    }
    if dist == 0.0 {
      SqNonneg(dx);
      SqNonneg(dy);
      SqZero(dx);
      SqZero(dy);
    } else {
      SqNonzero(dist);
    }
  }

  lemma SqZero(a: real)
    requires Sq(a) == 0.0
    ensures a == 0.0
  {
    if a != 0.0 {
      SqNonzero(a);
    }
  }

  /** Pushing along the normal n = d / dist by the overlap reach - dist
      leaves the centres reach * n apart. */
  lemma PushedApart(d: real, dist: real, reach: real, n: real, e: real)
    requires dist != 0.0 && n == d / dist && e == d + n * (reach - dist)
    ensures e == reach * n && e * dist == reach * d
  {
    DivMul(d, dist);
    assert n * (reach - dist) == n * reach - n * dist;
  }

  /** A vector of length r along a unit normal has squared length Sq(r). */
  lemma ScaledUnit(r: real, nx: real, ny: real)
    requires Sq(nx) + Sq(ny) == 1.0
    ensures Sq(r * nx) + Sq(r * ny) == Sq(r)
  {
    SqMul(r, nx);
    SqMul(r, ny);
    var s := Sq(r);
    assert s * Sq(nx) + s * Sq(ny) == s * (Sq(nx) + Sq(ny));
  }

  /** The normal of a resolved pair is the unit vector along the line of
      centres, and the resolved pair is the pushed pair after the exchange. */
  lemma ResolvedForm(b1: BallState, b2: BallState, hypot: (real, real) -> real)
    requires IsHypot(hypot) && ResolvePair(b1, b2, hypot).Resolved?
    ensures var dx, dy, reach := b2.x - b1.x, b2.y - b1.y, b1.radius + b2.radius;
      var dist := hypot(dx, dy);
      var nx, ny := dx / dist, dy / dist;
      var p := Push(b1, b2, nx, ny, reach - dist);
      var r := ResolvePair(b1, b2, hypot);
      && 0.0 < dist < reach && Sq(nx) + Sq(ny) == 1.0
      && r.b1 == Exchange(p.0, p.1, nx, ny).0 && r.b2 == Exchange(p.0, p.1, nx, ny).1
  {
    var dx, dy := b2.x - b1.x, b2.y - b1.y;
    UnitNormal(hypot, dx, dy, hypot(dx, dy));
  }

  /** A resolved pair ends up exactly touching, with the line of centres in
      its old direction and its midpoint where it was. */
  lemma ResolvedTouching(b1: BallState, b2: BallState, hypot: (real, real) -> real)
    requires IsHypot(hypot) && ResolvePair(b1, b2, hypot).Resolved?
    ensures var dx, dy, reach := b2.x - b1.x, b2.y - b1.y, b1.radius + b2.radius;
      var dist := hypot(dx, dy);
      var r := ResolvePair(b1, b2, hypot);
      && 0.0 < dist < reach
      && hypot(r.b2.x - r.b1.x, r.b2.y - r.b1.y) == reach
      && (r.b2.x - r.b1.x) * dist == reach * dx && (r.b2.y - r.b1.y) * dist == reach * dy
      && r.b1.x + r.b2.x == b1.x + b2.x && r.b1.y + r.b2.y == b1.y + b2.y
  {
    var dx, dy, reach := b2.x - b1.x, b2.y - b1.y, b1.radius + b2.radius;
    var dist := hypot(dx, dy);
    var nx, ny := dx / dist, dy / dist;
    ResolvedForm(b1, b2, hypot);
    var r := ResolvePair(b1, b2, hypot);
    var ex, ey := r.b2.x - r.b1.x, r.b2.y - r.b1.y;
    PushedApart(dx, dist, reach, nx, ex);
    PushedApart(dy, dist, reach, ny, ey);
    ScaledUnit(reach, nx, ny);
    HypotIs(hypot, ex, ey, reach);
  }

  /** Each ball of a resolved pair moves by half the overlap. */
  lemma ResolvedHalfOverlap(b1: BallState, b2: BallState, hypot: (real, real) -> real)
    requires IsHypot(hypot) && ResolvePair(b1, b2, hypot).Resolved?
    ensures var dx, dy, reach := b2.x - b1.x, b2.y - b1.y, b1.radius + b2.radius;
      var dist := hypot(dx, dy);
      var r := ResolvePair(b1, b2, hypot);
      && hypot(r.b1.x - b1.x, r.b1.y - b1.y) == (reach - dist) / 2.0
      && hypot(r.b2.x - b2.x, r.b2.y - b2.y) == (reach - dist) / 2.0
  {
    var dx, dy, reach := b2.x - b1.x, b2.y - b1.y, b1.radius + b2.radius;
    var dist := hypot(dx, dy);
    var nx, ny := dx / dist, dy / dist;
    ResolvedForm(b1, b2, hypot);
    var r := ResolvePair(b1, b2, hypot);
    var half := (reach - dist) / 2.0;
    ScaledUnit(half, nx, ny);
    ScaledUnit(-half, nx, ny);
    assert r.b2.x - b2.x == half * nx && r.b2.y - b2.y == half * ny;
    HypotIs(hypot, r.b2.x - b2.x, r.b2.y - b2.y, half);
    assert r.b1.x - b1.x == -half * nx && r.b1.y - b1.y == -half * ny;
    assert Sq(-half) == Sq(half);
    HypotIs(hypot, r.b1.x - b1.x, r.b1.y - b1.y, half);
  }

  /** A resolved pair keeps its total momentum and kinetic energy, and
      nothing but positions and velocities changes. */
  lemma ResolvedConserves(b1: BallState, b2: BallState, hypot: (real, real) -> real)
    requires IsHypot(hypot) && ResolvePair(b1, b2, hypot).Resolved?
    ensures var r := ResolvePair(b1, b2, hypot);
      && r.b1.vx + r.b2.vx == b1.vx + b2.vx && r.b1.vy + r.b2.vy == b1.vy + b2.vy
      && Sq(r.b1.vx) + Sq(r.b1.vy) + Sq(r.b2.vx) + Sq(r.b2.vy)
         == Sq(b1.vx) + Sq(b1.vy) + Sq(b2.vx) + Sq(b2.vy)
      && r.b1 == b1.(x := r.b1.x, y := r.b1.y, vx := r.b1.vx, vy := r.b1.vy)
      && r.b2 == b2.(x := r.b2.x, y := r.b2.y, vx := r.b2.vx, vy := r.b2.vy)
  {
    var dx, dy, reach := b2.x - b1.x, b2.y - b1.y, b1.radius + b2.radius;
    var dist := hypot(dx, dy);
    var nx, ny := dx / dist, dy / dist;
    ResolvedForm(b1, b2, hypot);
    var p := Push(b1, b2, nx, ny, reach - dist);
    ExchangeMomentum(p.0, p.1, nx, ny);
    ExchangeEnergy(p.0, p.1, nx, ny);
  }

  /** A head-on hit: a ball moving at 50 along the x axis catches a resting
      ball whose centre is 28 ahead (radii 15). Both are pushed 1 apart and
      the moving ball hands all of its velocity to the other. */
  lemma HeadOnCollision(hypot: (real, real) -> real)
    requires IsHypot(hypot)
    ensures var a, b := Spawn(100.0, 100.0, 50.0, 0.0, 15.0), Spawn(128.0, 100.0, 0.0, 0.0, 15.0);
      ResolvePair(a, b, hypot)
      == Resolved(a.(x := 99.0, vx := 0.0), b.(x := 129.0, vx := 50.0))
  {
    var a, b := Spawn(100.0, 100.0, 50.0, 0.0, 15.0), Spawn(128.0, 100.0, 0.0, 0.0, 15.0);
    HypotIs(hypot, 28.0, 0.0, 28.0);
    SeparateValues(a, b, 1.0, 0.0, 2.0, 50.0, 0.0, 0.0, 0.0);
  }

  // ---------------------------------------------------------------- the pass

  /** How a collision pass ends: normally, or with the division by zero
      that aborts the program, carrying the states as they were then. */
  datatype Outcome = Finished(balls: seq<BallState>) | ZeroDivision(balls: seq<BallState>)

  /** The states after resolving pair (i, j), when that does not divide by
      zero: only balls i and j change. */
  function AfterPair(s: seq<BallState>, i: nat, j: nat, hypot: (real, real) -> real): (r: seq<BallState>)
    requires i < j < |s|
    ensures |r| == |s| && forall m :: 0 <= m < |s| && m != i && m != j ==> r[m] == s[m]
  {
    match ResolvePair(s[i], s[j], hypot)
    case Resolved(a, b) => s[i := a][j := b]
    case _ => s
  }

  /** The pair loop from pair (i, j) on: j runs over i + 1 .. |s| - 1 for
      each i in turn, and every pair is resolved against the states left by
      the pairs before it. */
  function PairPass(s: seq<BallState>, i: nat, j: nat, hypot: (real, real) -> real): (r: Outcome)
    requires i < j
    ensures |r.balls| == |s|
    decreases |s| - i, |s| - j, 1
  {
    if j < |s| then PairStep(s, i, j, hypot)
    else if i + 1 < |s| then PairPass(s, i + 1, i + 2, hypot)
    else Finished(s)
  }

  /** Pair (i, j) and the rest of the pass after it. */
  function PairStep(s: seq<BallState>, i: nat, j: nat, hypot: (real, real) -> real): (r: Outcome)
    requires i < j < |s|
    ensures |r.balls| == |s|
    decreases |s| - i, |s| - j, 0
  {
    if ResolvePair(s[i], s[j], hypot).ZeroDistance? then ZeroDivision(s)
    else PairPass(AfterPair(s, i, j, hypot), i, j + 1, hypot)
  }

  /** One step of the inner loop: the pass from (i, j) either stops at the
      division by zero, with the states untouched, or goes on from (i, j + 1)
      with the states after the pair. */
  lemma PairPassStep(s0: seq<BallState>, s: seq<BallState>, t: seq<BallState>, i: nat, j: nat,
                     hypot: (real, real) -> real, zero: bool)
    requires i < j < |s| && t == AfterPair(s, i, j, hypot)
    requires zero == ResolvePair(s[i], s[j], hypot).ZeroDistance?
    requires PairPass(s0, i, i + 1, hypot) == PairPass(s, i, j, hypot)
    ensures zero ==> t == s && PairPass(s0, i, i + 1, hypot) == ZeroDivision(t)
    ensures !zero ==> PairPass(s0, i, i + 1, hypot) == PairPass(t, i, j + 1, hypot)
  {}

  /** Past the last partner of ball i the pass goes on with ball i + 1. */
  lemma RowEnd(s: seq<BallState>, i: nat, hypot: (real, real) -> real)
    requires i < |s|
    ensures PairPass(s, i, |s|, hypot) == PairPass(s, i + 1, i + 2, hypot)
  {}

  /** `handle_collisions`: the wall pass, then the pair pass. */
  function Collide(s: seq<BallState>, hypot: (real, real) -> real): Outcome
  {
    PairPass(WallPass(s), 0, 1, hypot)
  }

  function Vx(b: BallState): real { b.vx }
  function Vy(b: BallState): real { b.vy }
  /** Twice the kinetic energy of a ball of unit mass. */
  function Energy(b: BallState): real { Sq(b.vx) + Sq(b.vy) }

  /** The sum of f over the list. */
  function Total(s: seq<BallState>, f: BallState -> real): real
  {
    if |s| == 0 then 0.0 else Total(s[..|s| - 1], f) + f(s[|s| - 1])
  }

  /** Replacing one element changes the sum by the difference. */
  lemma {:induction false} TotalUpdate(s: seq<BallState>, k: nat, v: BallState, f: BallState -> real)
    requires k < |s|
    ensures Total(s[k := v], f) == Total(s, f) - f(s[k]) + f(v)
  {
    var n := |s| - 1;
    if k < n {
      assert s[k := v][..n] == s[..n][k := v];
      TotalUpdate(s[..n], k, v, f);
    } else {
      assert s[k := v][..n] == s[..n];
    }
  }

  /** Lists that agree on f element by element have the same sum. */
  lemma {:induction false} TotalPointwise(s: seq<BallState>, t: seq<BallState>, f: BallState -> real)
    requires |s| == |t| && forall k :: 0 <= k < |s| ==> f(s[k]) == f(t[k])
    ensures Total(s, f) == Total(t, f)
  {
    if |s| > 0 {
      TotalPointwise(s[..|s| - 1], t[..|t| - 1], f);
    }
  }

  /** Lists that are element by element no larger under f have no larger
      sum. */
  lemma {:induction false} TotalMono(s: seq<BallState>, t: seq<BallState>, f: BallState -> real)
    requires |s| == |t| && forall k :: 0 <= k < |s| ==> f(s[k]) <= f(t[k])
    ensures Total(s, f) <= Total(t, f)
  {
    if |s| > 0 {
      TotalMono(s[..|s| - 1], t[..|t| - 1], f);
    }
  }

  /** Resolving pair (i, j) of a list keeps the list's total momentum and
      kinetic energy. */
  lemma AfterPairTotals(s: seq<BallState>, i: nat, j: nat, hypot: (real, real) -> real)
    requires IsHypot(hypot) && i < j < |s|
    ensures var t := AfterPair(s, i, j, hypot);
      Total(t, Vx) == Total(s, Vx) && Total(t, Vy) == Total(s, Vy) && Total(t, Energy) == Total(s, Energy)
  {
    var r := ResolvePair(s[i], s[j], hypot);
    if r.Resolved? {
      ResolvedConserves(s[i], s[j], hypot);
      TotalUpdate(s, i, r.b1, Vx);
      TotalUpdate(s[i := r.b1], j, r.b2, Vx);
      TotalUpdate(s, i, r.b1, Vy);
      TotalUpdate(s[i := r.b1], j, r.b2, Vy);
      TotalUpdate(s, i, r.b1, Energy);
      TotalUpdate(s[i := r.b1], j, r.b2, Energy);
    }
  }

  /** Resolving pair (i, j) changes only positions and velocities. */
  lemma AfterPairKeeps(s: seq<BallState>, i: nat, j: nat, hypot: (real, real) -> real)
    requires i < j < |s|
    ensures var t := AfterPair(s, i, j, hypot);
      forall k :: 0 <= k < |s| ==> t[k] == s[k].(x := t[k].x, y := t[k].y, vx := t[k].vx, vy := t[k].vy)
  {
    var b1, b2 := s[i], s[j];
    var dx, dy := b2.x - b1.x, b2.y - b1.y;
    var dist := hypot(dx, dy);
    if dist < b1.radius + b2.radius && dist != 0.0 {
      var nx, ny := dx / dist, dy / dist;
      var overlap := (b1.radius + b2.radius) - dist;
      SeparateValues(b1, b2, nx, ny, overlap, Normal(b1.vx, b1.vy, nx, ny), Tangent(b1.vx, b1.vy, nx, ny),
                     Normal(b2.vx, b2.vy, nx, ny), Tangent(b2.vx, b2.vy, nx, ny));
    }
  }

  /** The pair pass keeps the total momentum and the total kinetic energy
      of the balls, however it ends. */
  lemma {:induction false} PairPassConserves(s: seq<BallState>, i: nat, j: nat, hypot: (real, real) -> real)
    requires IsHypot(hypot) && i < j
    ensures var r := PairPass(s, i, j, hypot).balls;
      Total(r, Vx) == Total(s, Vx) && Total(r, Vy) == Total(s, Vy) && Total(r, Energy) == Total(s, Energy)
    decreases |s| - i, |s| - j
  {
    if j < |s| {
      if !ResolvePair(s[i], s[j], hypot).ZeroDistance? {
        AfterPairTotals(s, i, j, hypot);
        PairPassConserves(AfterPair(s, i, j, hypot), i, j + 1, hypot);
      }
    } else if i + 1 < |s| {
      PairPassConserves(s, i + 1, i + 2, hypot);
    }
  }

  /** The pair pass changes only positions and velocities. */
  lemma {:induction false} PairPassKeeps(s: seq<BallState>, i: nat, j: nat, hypot: (real, real) -> real)
    requires i < j
    ensures var r := PairPass(s, i, j, hypot).balls;
      forall k :: 0 <= k < |s| ==>
        r[k] == s[k].(x := r[k].x, y := r[k].y, vx := r[k].vx, vy := r[k].vy)
    decreases |s| - i, |s| - j
  {
    if j < |s| {
      if !ResolvePair(s[i], s[j], hypot).ZeroDistance? {
        AfterPairKeeps(s, i, j, hypot);
        PairPassKeeps(AfterPair(s, i, j, hypot), i, j + 1, hypot);
      }
    } else if i + 1 < |s| {
      PairPassKeeps(s, i + 1, i + 2, hypot);
    }
  }

  /** Walls keep the kinetic energy of every ball. */
  lemma BounceKeepsEnergy(s: BallState)
    ensures Energy(Bounce(s)) == Energy(s)
  {
    assert forall v :: Sq(Abs(v)) == Sq(v) by {
      forall v ensures Sq(Abs(v)) == Sq(v) {
        if v < 0.0 {
          assert Abs(v) == -v;
        }
      }
    }
  }

  /** A collision step never changes the total kinetic energy, and it keeps
      every ball's radius, trail and odometer. */
  lemma CollideConserves(s: seq<BallState>, hypot: (real, real) -> real)
    requires IsHypot(hypot)
    ensures var r := Collide(s, hypot).balls;
      && Total(r, Energy) == Total(s, Energy)
      && forall k :: 0 <= k < |s| ==>
           r[k].radius == s[k].radius && r[k].path == s[k].path && r[k].distance == s[k].distance
  {
    var w := WallPass(s);
    forall k | 0 <= k < |s|
      ensures Energy(w[k]) == Energy(s[k])
    {
      BounceKeepsEnergy(s[k]);
    }
    TotalPointwise(w, s, Energy);
    PairPassConserves(w, 0, 1, hypot);
    PairPassKeeps(w, 0, 1, hypot);
  }

  // ---------------------------------------------------------------- in place

  /** The wall checks on one ball, in place. */
  method ClampToTable(b: Ball)
    modifies b
    ensures b.State() == Bounce(old(b.State()))
    ensures b.path == old(b.path)
  {
    if b.x - b.radius < 0.0 {
      b.x, b.vx := b.radius, Abs(b.vx);
    }
    if b.x + b.radius > WIDTH {
      b.x, b.vx := WIDTH - b.radius, -Abs(b.vx);
    }
    if b.y - b.radius < 0.0 {
      b.y, b.vy := b.radius, Abs(b.vy);
    }
    if b.y + b.radius > HEIGHT {
      b.y, b.vy := HEIGHT - b.radius, -Abs(b.vy);
    }
  }

  /** The separated pair written out field by field. */
  lemma SeparateValues(s1: BallState, s2: BallState, nx: real, ny: real, overlap: real,
                       v1n: real, v1t: real, v2n: real, v2t: real)
    requires v1n == Normal(s1.vx, s1.vy, nx, ny) && v1t == Tangent(s1.vx, s1.vy, nx, ny)
    requires v2n == Normal(s2.vx, s2.vy, nx, ny) && v2t == Tangent(s2.vx, s2.vy, nx, ny)
    ensures Separate(s1, s2, nx, ny, overlap) ==
      (BallState(s1.x - nx * overlap / 2.0, s1.y - ny * overlap / 2.0,
                 v2n * nx - v1t * ny, v2n * ny + v1t * nx, s1.radius, s1.path, s1.distance),
       BallState(s2.x + nx * overlap / 2.0, s2.y + ny * overlap / 2.0,
                 v1n * nx - v2t * ny, v1n * ny + v2t * nx, s2.radius, s2.path, s2.distance))
  {
    var p := Push(s1, s2, nx, ny, overlap);
    assert p.0 == s1.(x := s1.x - nx * overlap / 2.0, y := s1.y - ny * overlap / 2.0);
    assert p.1 == s2.(x := s2.x + nx * overlap / 2.0, y := s2.y + ny * overlap / 2.0);
    var e := Exchange(p.0, p.1, nx, ny);
    assert Normal(p.1.vx, p.1.vy, nx, ny) == v2n && Tangent(p.0.vx, p.0.vy, nx, ny) == v1t;
    assert Normal(p.0.vx, p.0.vy, nx, ny) == v1n && Tangent(p.1.vx, p.1.vy, nx, ny) == v2t;
    assert e.0.vx == v2n * nx - v1t * ny;
    assert e.0.vy == v2n * ny + v1t * nx;
    assert e.1.vx == v1n * nx - v2t * ny;
    assert e.1.vy == v1n * ny + v2t * nx;
    assert e.0.x == s1.x - nx * overlap / 2.0;
    assert Separate(s1, s2, nx, ny, overlap) == e;
  }

  /** One step of the pair loop on two distinct balls, in place. Returns
      whether the step divides by zero, in which case nothing is changed.
      Both velocities are read before any field is written; the positions
      the source moves first do not enter them. */
  method ResolveBalls(b1: Ball, b2: Ball, hypot: (real, real) -> real) returns (zero: bool)
    requires b1 != b2
    modifies b1, b2
    ensures var r := ResolvePair(old(b1.State()), old(b2.State()), hypot);
      && zero == r.ZeroDistance?
      && (r.Resolved? ==> b1.State() == r.b1 && b2.State() == r.b2)
      && (!r.Resolved? ==> b1.State() == old(b1.State()) && b2.State() == old(b2.State()))
    ensures b1.path == old(b1.path) && b2.path == old(b2.path)
  {
    var dx, dy := b2.x - b1.x, b2.y - b1.y;
    var dist := hypot(dx, dy);
    if dist < b1.radius + b2.radius {
      if dist == 0.0 {
        return true;
      }
      var nx, ny := dx / dist, dy / dist;
      var overlap := (b1.radius + b2.radius) - dist;
      var v1n, v1t := nx * b1.vx + ny * b1.vy, -ny * b1.vx + nx * b1.vy;
      var v2n, v2t := nx * b2.vx + ny * b2.vy, -ny * b2.vx + nx * b2.vy;
      SeparateValues(b1.State(), b2.State(), nx, ny, overlap, v1n, v1t, v2n, v2t);
      b1.x, b1.y, b1.vx, b1.vy := b1.x - nx * overlap / 2.0, b1.y - ny * overlap / 2.0,
        v2n * nx - v1t * ny, v2n * ny + v1t * nx;
      b2.x, b2.y, b2.vx, b2.vy := b2.x + nx * overlap / 2.0, b2.y + ny * overlap / 2.0,
        v1n * nx - v2t * ny, v1n * ny + v2t * nx;
    }
    return false;
  }

  /** The wall pass on the list of balls, in place. */
  method ClampAll(balls: seq<Ball>)
    requires Distinct(balls)
    modifies balls
    ensures Snapshot(balls) == WallPass(old(Snapshot(balls)))
    ensures forall m :: 0 <= m < |balls| ==> balls[m].path == old(balls[m].path)
  {
    ghost var s0 := Snapshot(balls);
    var k := 0;
    while k < |balls|
      invariant 0 <= k <= |balls|
      invariant forall m :: 0 <= m < |balls| ==> balls[m].path == old(balls[m].path)
      invariant forall m :: 0 <= m < k ==> balls[m].State() == Bounce(s0[m])
      invariant forall m :: k <= m < |balls| ==> balls[m].State() == s0[m]
    {
      ClampToTable(balls[k]);
      k := k + 1;
    }
  }

  /** One step of the pair loop on pair (i, j) of the list, in place:
      the balls go from states `cur` to `AfterPair(cur, i, j, hypot)`. */
  method ResolveAt(balls: seq<Ball>, i: nat, j: nat, hypot: (real, real) -> real, ghost cur: seq<BallState>)
    returns (zero: bool)
    requires Distinct(balls) && i < j < |balls| && |cur| == |balls|
    requires forall m :: 0 <= m < |balls| ==> balls[m].State() == cur[m]
    modifies balls
    ensures zero == ResolvePair(cur[i], cur[j], hypot).ZeroDistance?
    ensures forall m :: 0 <= m < |balls| ==> balls[m].State() == AfterPair(cur, i, j, hypot)[m]
    ensures forall m :: 0 <= m < |balls| ==> balls[m].path == old(balls[m].path)
  {
    zero := ResolveBalls(balls[i], balls[j], hypot);
  }

  /** The inner loop of the pair pass for ball i, in place: on success the
      pass over pairs (i, i + 1 ..) is done, otherwise it stopped at the
      division by zero. */
  method ResolveRow(balls: seq<Ball>, i: nat, hypot: (real, real) -> real) returns (ok: bool)
    requires Distinct(balls) && i < |balls|
    modifies balls
    ensures ok ==> PairPass(old(Snapshot(balls)), i, i + 1, hypot) == PairPass(Snapshot(balls), i + 1, i + 2, hypot)
    ensures !ok ==> PairPass(old(Snapshot(balls)), i, i + 1, hypot) == ZeroDivision(Snapshot(balls))
    ensures forall m :: 0 <= m < |balls| ==> balls[m].path == old(balls[m].path)
  {
    ghost var s0 := Snapshot(balls);
    ghost var cur := s0;
    var j := i + 1;
    while j < |balls|
      invariant i + 1 <= j <= |balls| && |cur| == |balls|
      invariant forall m :: 0 <= m < |balls| ==> balls[m].path == old(balls[m].path)
      invariant forall m :: 0 <= m < |balls| ==> balls[m].State() == cur[m]
      invariant PairPass(s0, i, i + 1, hypot) == PairPass(cur, i, j, hypot)
    {
      var zero := ResolveAt(balls, i, j, hypot, cur);
      ghost var next := AfterPair(cur, i, j, hypot);
      PairPassStep(s0, cur, next, i, j, hypot, zero);
      cur := next;
      if zero {
        assert Snapshot(balls) == cur;
        return false;
      }
      j := j + 1;
    }
    assert Snapshot(balls) == cur;
    RowEnd(cur, i, hypot);
    return true;
  }

  /** The pair loop of `handle_collisions` over the list of balls, in
      place. Returns false when it stops at the division by zero; the balls
      then hold the states reached at that point. */
  method ResolveAll(balls: seq<Ball>, hypot: (real, real) -> real) returns (ok: bool)
    requires Distinct(balls)
    modifies balls
    ensures var r := PairPass(old(Snapshot(balls)), 0, 1, hypot);
      ok == r.Finished? && Snapshot(balls) == r.balls
    ensures forall m :: 0 <= m < |balls| ==> balls[m].path == old(balls[m].path)
  {
    ghost var s0 := Snapshot(balls);
    ghost var cur := s0;
    var i := 0;
    while i < |balls|
      invariant Snapshot(balls) == cur
      invariant forall m :: 0 <= m < |balls| ==> balls[m].path == old(balls[m].path)
      invariant PairPass(s0, 0, 1, hypot) == PairPass(cur, i, i + 1, hypot)
    {
      ok := ResolveRow(balls, i, hypot);
      cur := Snapshot(balls);
      if !ok {
        return;
      }
      i := i + 1;
    }
    assert PairPass(cur, i, i + 1, hypot) == Finished(cur);
    return true;
  }

  /** `handle_collisions` on the list of balls, in place: the wall loop,
      then the pair loop. Returns false when the pass stops at the division
      by zero; the balls then hold the states reached at that point. Every
      trail is left as it was. */
  method HandleCollisions(balls: seq<Ball>, hypot: (real, real) -> real) returns (ok: bool)
    requires Distinct(balls)
    modifies balls
    ensures var r := Collide(old(Snapshot(balls)), hypot);
      ok == r.Finished? && Snapshot(balls) == r.balls
    ensures forall m :: 0 <= m < |balls| ==> balls[m].path == old(balls[m].path)
  {
    ClampAll(balls);
    ok := ResolveAll(balls, hypot);
  }
}
