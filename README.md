# Billiard table physics

A Dafny model of the physics of a small pygame billiard simulation
(`modeling-1/main.py`). Balls move on a 1200 x 1000 table. A ball that is
slower than 2 units per second stops. Otherwise it takes an explicit Euler
step, adds the step length to an odometer, and leaves a trail of at most 100
points spaced more than 5 units apart. Friction then scales its velocity by
`exp(-MU * dt)`. After every ball has moved, a collision pass runs:

- the wall pass clamps each ball back onto the table and turns the offending
  velocity component away from the wall;
- the pair pass visits every pair i < j in list order. An overlapping pair is
  pushed apart along the line of centres, half the overlap each. The two balls
  then swap their normal velocity components and keep their tangential ones.

Releasing the mouse launches the cue ball with six times the drag vector.

The model is split into four modules:

- `Geometry` (`geometry.dfy`): the table constants, and the contracts the
  model assumes of `math.hypot` and `math.exp`, which are passed in as
  function parameters. It also holds lemmas on squares and norms.
- `Balls` (`balls.dfy`): the `Ball` class with its `Update` method, specified
  by the pure function `Advance` on a `BallState` value.
- `Collisions` (`collisions.dfy`): the wall pass and the pair pass.
  - Pure specifications: `Bounce`, `ResolvePair`, `PairPass` and `Collide`.
  - In-place methods on the balls: `ClampToTable`, `ResolveBalls`,
    `ResolveAll` and `HandleCollisions`.
  - Conservation of momentum and energy, proved per pair and over a whole pass.
- `Simulation` (`simulation.dfy`): the launch of the cue ball, and one frame
  of the main loop (`Tick`: every `update`, then `handle_collisions`).

The source compares norms against thresholds with `hypot`:

- `speed < MIN_VELOCITY`;
- the trail spacing `> 5`.

The model makes these two comparisons on squared lengths. The lemmas
`SlowIffBelowMinimum` and `TrailStep` prove that each squared test decides
exactly as the `hypot` test does. The contact test `dist < r1 + r2` keeps
`hypot`, because the distance is needed for the normal anyway.
`ContactIffOverlap` gives its squared form.

The collision pass divides by zero when two overlapping balls share a centre.
In Python this raises `ZeroDivisionError` in the middle of the pass. The model
gives it the outcome `ZeroDivision`, which carries the ball states reached at
that point. `HandleCollisions` and `Tick` return `false` in that case.

## Model

| member | source | states |
|---|---|---|
| `Geometry.UnitNormal` | modeling-1/main.py:69-71 | dividing the centre offset by its non-zero `hypot` length gives a normal of unit length |
| `Balls.Spawn` | modeling-1/main.py:28-35 | a new ball has the given position, velocity and radius, a trail holding only its start point, and a zero odometer |
| `Balls.Ball.constructor` | modeling-1/main.py:28-35 | the constructed ball is valid, its state is `Spawn` of the arguments, and its name is the one given |
| `Balls.Record` | modeling-1/main.py:46-48 | the trail stays non-empty, grows by at most one point, and stays within 100 points when it was |
| `Balls.TrailStep` | modeling-1/main.py:46-48 | farther than 5 from the last point (by `hypot`): the position is appended and the trail is the last min(n + 1, 100) points of old + [p]; otherwise the trail is unchanged |
| `Balls.SlowIffBelowMinimum` | modeling-1/main.py:38-39 | `hypot(vx, vy) < MIN_VELOCITY` holds exactly when the squared speed is below 4 |
| `Balls.SlowTick` | modeling-1/main.py:38-41 | below the minimum speed the velocity becomes (0, 0); position, trail, odometer and radius are unchanged |
| `Balls.RestIsFixed` | modeling-1/main.py:38-41 | a ball at rest is left exactly as it is by a tick |
| `Balls.DecayBounds` | modeling-1/main.py:49 | the friction factor `exp(-MU*dt)` lies in (0, 1] for dt >= 0, and below 1 for dt > 0 |
| `Balls.MovingTick` | modeling-1/main.py:42-51 | a moving tick steps the position by (vx dt, vy dt) and adds the non-negative step length to the odometer; both velocity components are scaled by the same factor in (0, 1]; the trail is updated by `Record`; the radius is kept |
| `Balls.Advance` | modeling-1/main.py:37-51 | one `update` on a ball state: stop when too slow, otherwise Euler step, odometer, trail, friction; its behaviour is stated by `SlowTick`, `MovingTick`, `TrailStep`, `SpeedNeverGrows` and `AdvanceKeeps`, and `Ball.Update` is proved equal to it |
| `Balls.SpeedNeverGrows` | modeling-1/main.py:37-51 | a tick of non-negative length never increases the squared speed |
| `Balls.AdvanceKeeps` | modeling-1/main.py:37-51 | a tick keeps the trail between 1 and 100 points, keeps the radius, and never decreases the odometer |
| `Balls.Ball.Update` | modeling-1/main.py:37-51 | the ball stays valid and its new state is `Advance` of its old state |
| `Collisions.Bounce` | modeling-1/main.py:61-64 | the four wall checks on one ball, in the source's order; stated by `BounceInBounds`, `BounceReflects`, `BounceKeepsInside`, `BounceIdempotent` and `BounceKeepsEnergy`, and `ClampToTable` is proved equal to it |
| `Collisions.WallPass` | modeling-1/main.py:60-64 | the wall loop over the list: every ball is bounced and the length is kept; `WallPassIdempotent` states that a second pass changes nothing, and `ClampAll` is proved equal to it |
| `Collisions.BounceInBounds` | modeling-1/main.py:60-64 | a ball with 2r <= WIDTH and 2r <= HEIGHT ends with r <= x <= WIDTH - r and r <= y <= HEIGHT - r |
| `Collisions.BounceReflects` | modeling-1/main.py:61-64 | after a left or top contact the velocity component is >= 0, after a right or bottom contact it is <= 0, and the ball sits against that wall; an axis with no contact keeps its coordinate and velocity component; each component's magnitude, the radius, the trail and the odometer are kept |
| `Collisions.BounceKeepsInside` | modeling-1/main.py:61-64 | a ball already within the walls is left unchanged |
| `Collisions.BounceIdempotent` | modeling-1/main.py:60-64 | applying the wall checks twice equals applying them once, for any radius |
| `Collisions.WallPassIdempotent` | modeling-1/main.py:60-64 | the wall pass over the list is idempotent |
| `Collisions.BounceKeepsEnergy` | modeling-1/main.py:61-64 | a wall contact keeps the ball's kinetic energy |
| `Collisions.ContactIffOverlap` | modeling-1/main.py:68-71 | a pair is resolved exactly when 0 < dx^2 + dy^2 < (r1 + r2)^2; the division by zero happens exactly when the centres coincide and r1 + r2 > 0; otherwise nothing happens |
| `Collisions.Exchange` | modeling-1/main.py:77-82 | the velocity exchange of a pair along a normal; stated by `ExchangeComponents`, `ExchangeMomentum` and `ExchangeEnergy` |
| `Collisions.ResolvePair` | modeling-1/main.py:67-82 | one pair step on two states: no contact, the division by zero, or the pushed and exchanged pair; stated by `ContactIffOverlap`, `ResolvedTouching`, `ResolvedHalfOverlap`, `ResolvedConserves` and `HeadOnCollision`, and `ResolveBalls` is proved equal to it |
| `Collisions.ExchangeComponents` | modeling-1/main.py:77-82 | with a unit normal, each ball's new normal component is the other ball's old one, each keeps its own tangential component, and nothing else changes |
| `Collisions.ExchangeMomentum` | modeling-1/main.py:77-82 | with a unit normal, the exchange keeps vx1 + vx2 and vy1 + vy2 |
| `Collisions.ExchangeEnergy` | modeling-1/main.py:77-82 | with a unit normal, the exchange keeps the sum of squared speeds |
| `Collisions.ResolvedTouching` | modeling-1/main.py:68-76 | a resolved pair ends exactly r1 + r2 apart, with the centre line in its old direction and its midpoint unchanged |
| `Collisions.ResolvedHalfOverlap` | modeling-1/main.py:72-76 | each ball of a resolved pair moves by exactly half the overlap |
| `Collisions.ResolvedConserves` | modeling-1/main.py:68-82 | a resolved pair keeps its total momentum and kinetic energy; only positions and velocities change |
| `Collisions.HeadOnCollision` | modeling-1/main.py:68-82 | a ball moving at (50, 0) that overlaps a resting ball 28 ahead (radii 15): both are pushed 1 apart, and the velocities become (0, 0) and (50, 0) |
| `Collisions.AfterPair` | modeling-1/main.py:66-82 | resolving pair (i, j) changes no ball other than i and j |
| `Collisions.PairPass` | modeling-1/main.py:65-82 | the ordered pair loop from pair (i, j) on, keeping the number of balls; stated by `PairPassConserves` and `PairPassKeeps`, and `ResolveRow` and `HandleCollisions` are proved to follow it |
| `Collisions.PairStep` | modeling-1/main.py:67-82 | pair (i, j), then the rest of the pass on the states it leaves, keeping the number of balls; it stops with the states unchanged at the division by zero |
| `Collisions.Collide` | modeling-1/main.py:59-82 | `handle_collisions` on state values: the wall pass, then the pair pass; stated by `CollideConserves`, and `HandleCollisions` is proved equal to it |
| `Collisions.AfterPairTotals` | modeling-1/main.py:66-82 | one pair step keeps the list's total momentum and kinetic energy |
| `Collisions.PairPassConserves` | modeling-1/main.py:65-82 | the whole pair pass keeps total momentum and total kinetic energy, whether it finishes or stops at the division by zero |
| `Collisions.PairPassKeeps` | modeling-1/main.py:65-82 | the pair pass changes only positions and velocities |
| `Collisions.CollideConserves` | modeling-1/main.py:59-82 | `handle_collisions` keeps the total kinetic energy and every ball's radius, trail and odometer |
| `Collisions.ClampToTable` | modeling-1/main.py:61-64 | the in-place wall checks leave the ball in state `Bounce` of its old state |
| `Collisions.ClampAll` | modeling-1/main.py:60-64 | the in-place wall loop leaves the balls in `WallPass` of their old states |
| `Collisions.ResolveBalls` | modeling-1/main.py:67-82 | the in-place pair step on two distinct balls reports the division by zero exactly as `ResolvePair` does and leaves both balls in the resolved states (unchanged when there is no contact) |
| `Collisions.ResolveAt` | modeling-1/main.py:66-82 | the in-place step on pair (i, j) of the list leaves the balls in `AfterPair` of their states |
| `Collisions.ResolveRow` | modeling-1/main.py:66-82 | the in-place inner loop for ball i advances the pair pass from (i, i + 1) to (i + 1, i + 2), or stops at the division by zero |
| `Collisions.ResolveAll` | modeling-1/main.py:65-82 | the in-place nested pair loop leaves the balls in the states of `PairPass` from pair (0, 1) on their old states, returns whether it finished, and leaves every trail unchanged |
| `Collisions.HandleCollisions` | modeling-1/main.py:59-82 | the in-place `handle_collisions` leaves the balls in the states of `Collide` on their old states, returns whether it finished, and leaves every trail unchanged |
| `Simulation.Launched` | modeling-1/main.py:117-119 | the cue ball's state after the mouse release; stated by `LaunchAimsAway`, `LaunchExample` and `ShortDragIsLost`, and `Launch` is proved equal to it |
| `Simulation.LaunchAimsAway` | modeling-1/main.py:117-119 | a launch keeps the position, sets the trail to the current point, points the velocity from the mouse to the ball, and makes the speed 6 times the drag length |
| `Simulation.LaunchExample` | modeling-1/main.py:117-119 | the cue ball at (200, 300), released at (190, 280), gets velocity (60, 120) and the trail [(200, 300)] |
| `Simulation.ShortDragIsLost` | modeling-1/main.py:117-121 | a drag shorter than 1/3 launches the ball too slowly, and the next `update` stops it in place |
| `Simulation.Launch` | modeling-1/main.py:117-119 | the in-place launch leaves the cue ball valid and in state `Launched` of its old state and the mouse position |
| `Simulation.AdvanceAll` | modeling-1/main.py:121 | every ball of the list advanced by one `update`, in place of its old state, with the length kept; `UpdateAll` is proved equal to it |
| `Simulation.Frame` | modeling-1/main.py:121-122 | one frame on state values: `AdvanceAll`, then `Collide`; stated by `FrameKeeps`, and `Tick` is proved equal to it |
| `Simulation.FrameKeeps` | modeling-1/main.py:121-122 | a frame keeps every trail well formed and every radius, never decreases an odometer, and never adds kinetic energy to the table |
| `Simulation.UpdateAll` | modeling-1/main.py:121 | updating every ball in list order leaves them valid and in the `Advance` states of their old states |
| `Simulation.Tick` | modeling-1/main.py:121-122 | one frame in place leaves the balls in the states of `Frame` on their old states, returns whether the collision pass finished, and leaves every ball valid for the next frame |

## Left out

- Rendering and input are not modelled, because they only produce pygame calls:
  - `Ball.draw` (modeling-1/main.py:53-57);
  - the window, font and clock setup;
  - the event loop and the HUD text;
  - the aiming line (modeling-1/main.py:84-116, 123-133).
- The press guard at line 114 is part of that event handling. It starts aiming only within 30 of the cue ball. `Launch` models only what the release does.
- Ball colours (`COLOR_DATA`) and the pyramid layout loop (modeling-1/main.py:95-102) are setup data.
- The frame time `dt` comes from `clock.tick(FPS)` and is a parameter here.
- All arithmetic is over exact reals, so floating-point rounding is not modelled.
- `math.hypot` and `math.exp` are function parameters. The only facts the model uses about them are `IsHypot` (non-negative, squares to a^2 + b^2) and `ExpBounds` (exp(0) = 1, and exp(t) in (0, 1) for t < 0).
- The radius is a real here. The source keeps the integer it was given.
- The zero velocity written at line 40 is the integer 0 in the source and 0.0 here.
- After the division by zero the model only reports the states. The program's termination by the uncaught exception is not modelled.
- The list of balls must hold distinct objects (`Distinct`), as the list built in `main` does. A list that holds the same `Ball` twice is not modelled.
- `Ball.Update` and `ResolveBalls` compute all new values first and store them together at the end. The source writes fields one at a time. `update` reads `x` and `y` again after writing them (lines 45-47). `Ball.Update` uses the new position at those reads, so the odometer step, the trail test and the appended point agree with the source. Otherwise both routines read only fields they have not yet written. The intermediate states are not modelled.
- The trail list is a `seq` value that `Update` reassigns. The source appends to it and pops from it in place, and no other object refers to it.
- Nothing of `modeling-2/main.py` (the electrostatic field visualiser) is part of this model.
