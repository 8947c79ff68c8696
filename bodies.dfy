/**
  The physics of an entity as values: an axis-aligned box with a velocity,
  gravity, horizontal damping, and collisions against one kind of tile of a
  grid (walls). The entity class in module Entities is proved against these.
*/
module Bodies {
  import opened Common
  import opened Constants
  import opened Layers

  /** Everything the physics reads and writes of an entity; positions and sizes in physics units. */
  datatype Body = Body(x: real, y: real, w: real, h: real, dx: real, dy: real,
                       gravity: real, xDampAmt: real, animCount: real,
                       facing: FacingDir, canCollide: bool)

  /** Default downward acceleration, in physics units per second squared. */
  const GRAVITY: real := 0.13 * (PHYSICS_SCALE * FPS * FPS) as real
  /** Default horizontal deceleration, in physics units per second squared. */
  const X_DAMP: real := (PHYSICS_SCALE * FPS * FPS) as real / 8.0

  /** A new entity: a zero-sized box at the origin, at rest, facing right, colliding with walls. */
  function NewBody(): (b: Body)
    ensures b.w == 0.0 && b.h == 0.0 && b.dx == 0.0 && b.dy == 0.0 && b.canCollide
    ensures b.gravity == 7488.0 && b.xDampAmt == 7200.0
  {
    Body(0.0, 0.0, 0.0, 0.0, 0.0, 0.0, GRAVITY, X_DAMP, 0.0, FacingRight, true)
  }

  function MinX(b: Body): real { b.x }
  function MinY(b: Body): real { b.y }
  function MaxX(b: Body): real { b.x + b.w }
  function MaxY(b: Body): real { b.y + b.h }
  function MidX(b: Body): real { b.x + b.w / 2.0 }
  function MidY(b: Body): real { b.y + b.h / 2.0 }

  /** The body moved horizontally so that its left edge is at `v`. */
  function WithMinX(b: Body, v: real): (r: Body)
    ensures MinX(r) == v && MaxX(r) == v + b.w && r == b.(x := r.x)
  {
    b.(x := v)
  }

  /** The body moved horizontally so that its right edge is at `v`. */
  function WithMaxX(b: Body, v: real): (r: Body)
    ensures MaxX(r) == v && MinX(r) == v - b.w && r == b.(x := r.x)
  {
    b.(x := v - b.w)
  }

  /** The body moved horizontally so that its centre is at `v`. */
  function WithMidX(b: Body, v: real): (r: Body)
    ensures MidX(r) == v && r == b.(x := r.x)
  {
    b.(x := v - b.w / 2.0)
  }

  /** The body moved vertically so that its top edge is at `v`. */
  function WithMinY(b: Body, v: real): (r: Body)
    ensures MinY(r) == v && MaxY(r) == v + b.h && r == b.(y := r.y)
  {
    b.(y := v)
  }

  /** The body moved vertically so that its bottom edge is at `v`. */
  function WithMaxY(b: Body, v: real): (r: Body)
    ensures MaxY(r) == v && MinY(r) == v - b.h && r == b.(y := r.y)
  {
    b.(y := v - b.h)
  }

  /** The body moved vertically so that its centre is at `v`. */
  function WithMidY(b: Body, v: real): (r: Body)
    ensures MidY(r) == v && r == b.(y := r.y)
  {
    b.(y := v - b.h / 2.0)
  }

  /** Setting an edge or the centre to where it already is changes nothing. */
  lemma SettersKeepCurrentPosition(b: Body)
    ensures WithMinX(b, MinX(b)) == b && WithMaxX(b, MaxX(b)) == b && WithMidX(b, MidX(b)) == b
    ensures WithMinY(b, MinY(b)) == b && WithMaxY(b, MaxY(b)) == b && WithMidY(b, MidY(b)) == b
  {
  }

  function Abs(r: real): real { if r < 0.0 then -r else r }

  /**
    The horizontal speed after damping by `damp`: it loses `damp` of its
    magnitude, stops rather than reverse, and keeps its sign.
  */
  function DampedDx(dx: real, damp: real): (r: real)
    ensures damp >= 0.0 && Abs(dx) > damp ==> Abs(r) == Abs(dx) - damp
    ensures damp >= 0.0 && Abs(dx) <= damp ==> r == 0.0
    ensures damp >= 0.0 ==> (dx >= 0.0 ==> r >= 0.0) && (dx <= 0.0 ==> r <= 0.0)
  {
    if dx > damp then dx - damp
    else if dx < -damp then dx + damp
    else 0.0
  }

  /** Damping never speeds a body up, for any non-negative damping. */
  lemma DampingSlowsDown(dx: real, damp: real)
    requires damp >= 0.0
    ensures Abs(DampedDx(dx, damp)) <= Abs(dx)
  {
  }

  function DampX(b: Body, dt: real): (r: Body)
    ensures r == b.(dx := DampedDx(b.dx, b.xDampAmt * dt))
  {
    b.(dx := DampedDx(b.dx, b.xDampAmt * dt))
  }

  function ApplyGravity(b: Body, dt: real): (r: Body)
    ensures r == b.(dy := r.dy)
    ensures r.dy - b.dy == b.gravity * dt
  {
    b.(dy := b.dy + b.gravity * dt)
  }

  /** The world point sampled at corner `c` of the body, shifted by `off`. */
  function CornerPoint(b: Body, c: Corner, off: Point): Point {
    Point(b.x + (if c.right then b.w else 0.0) + off.x, b.y + (if c.bottom then b.h else 0.0) + off.y)
  }

  /** Whether the tile of `g` under one of the corners facing `dir` (all four without a direction), shifted by `off`, is `tile`. */
  predicate TouchingTile<T(==)>(b: Body, g: Grid<T>, tile: T, dir: Option<Dir>, off: Point) {
    var cs := CornersInDirection(dir);
    exists i :: 0 <= i < |cs| && g(CellOfCoord(CornerPoint(b, cs[i], off))) == tile
  }

  /**
    The tiles sampled downwards one unit under the feet are those one unit
    under the two bottom corners.
  */
  lemma TouchingBelowFeet<T>(b: Body, g: Grid<T>, tile: T)
    ensures TouchingTile(b, g, tile, Some(Down), Point(0.0, 1.0)) <==>
              g(Index(TileOf(MinX(b)), TileOf(MaxY(b) + 1.0))) == tile ||
              g(Index(TileOf(MaxX(b)), TileOf(MaxY(b) + 1.0))) == tile
  {
    var cs := CornersInDirection(Some(Down));
    assert cs[0] == Corner(false, true) && cs[1] == Corner(true, true);
    assert CornerPoint(b, cs[0], Point(0.0, 1.0)) == Point(MinX(b), MaxY(b) + 1.0);
    assert CornerPoint(b, cs[1], Point(0.0, 1.0)) == Point(MaxX(b), MaxY(b) + 1.0);
  }

  /**
    A body sampling all four corners touches a tile exactly when it touches
    it on its left side or on its right side (and likewise top or bottom).
  */
  lemma TouchingAnyCorner<T>(b: Body, g: Grid<T>, tile: T, off: Point)
    ensures TouchingTile(b, g, tile, None, off) <==>
              TouchingTile(b, g, tile, Some(Left), off) || TouchingTile(b, g, tile, Some(Right), off)
    ensures TouchingTile(b, g, tile, None, off) <==>
              TouchingTile(b, g, tile, Some(Up), off) || TouchingTile(b, g, tile, Some(Down), off)
  {
    var all := CornersInDirection(None);
    var l, r := CornersInDirection(Some(Left)), CornersInDirection(Some(Right));
    var u, d := CornersInDirection(Some(Up)), CornersInDirection(Some(Down));
    assert all[0] == l[0] == u[0] && all[1] == r[0] == u[1];
    assert all[2] == l[1] == d[0] && all[3] == r[1] == d[1];
  }

  /** Whether the body stands on a wall: a wall tile one unit under its bottom-left or bottom-right corner. */
  function OnGround<T(==)>(b: Body, g: Grid<T>, wall: T): (r: bool)
    ensures r <==>
              g(Index(TileOf(MinX(b)), TileOf(MaxY(b) + 1.0))) == wall ||
              g(Index(TileOf(MaxX(b)), TileOf(MaxY(b) + 1.0))) == wall
  {
    TouchingBelowFeet(b, g, wall);
    TouchingTile(b, g, wall, Some(Down), Point(0.0, 1.0))
  }

  /** Pushes the body right, out of the wall column its left edge is in, flush with the next column. */
  function OnLeftCollision(b: Body): (r: Body)
    ensures r == b.(x := r.x, dx := 0.0)
    ensures TileOf(MinX(r)) == TileOf(MinX(b)) + 1
    ensures MinX(r) == (TileOf(MinX(r)) * TILE_SIZE) as real
  {
    var reset := TileCoordFromCoord(Point(MinX(b), 0.0), Point(1.0, 0.0));
    TileOfUnique(reset.x + 1.0, TileOf(MinX(b)) + 1);
    WithMinX(b, reset.x + 1.0).(dx := 0.0)
  }

  /** Pushes the body left, so that its right edge is one unit short of the wall column it was in. */
  function OnRightCollision(b: Body): (r: Body)
    ensures r == b.(x := r.x, dx := 0.0)
    ensures TileOf(MaxX(r)) == TileOf(MaxX(b)) - 1
    ensures MaxX(r) + 1.0 == (TileOf(MaxX(b)) * TILE_SIZE) as real
  {
    var reset := TileCoordFromCoord(Point(MaxX(b), 0.0), Point(0.0, 0.0));
    TileOfUnique(reset.x - 1.0, TileOf(MaxX(b)) - 1);
    WithMaxX(b, reset.x - 1.0).(dx := 0.0)
  }

  /** Pushes the body down, out of the wall row its top edge is in, flush with the next row. */
  function OnUpCollision(b: Body): (r: Body)
    ensures r == b.(y := r.y, dy := 0.0)
    ensures TileOf(MinY(r)) == TileOf(MinY(b)) + 1
    ensures MinY(r) == (TileOf(MinY(r)) * TILE_SIZE) as real
  {
    var reset := TileCoordFromCoord(Point(0.0, MinY(b)), Point(0.0, 1.0));
    TileOfUnique(reset.y + 1.0, TileOf(MinY(b)) + 1);
    WithMinY(b, reset.y + 1.0).(dy := 0.0)
  }

  /** Pushes the body up, so that its bottom edge is one unit above the wall row it was in. */
  function OnDownCollision(b: Body): (r: Body)
    ensures r == b.(y := r.y, dy := 0.0)
    ensures TileOf(MaxY(r)) == TileOf(MaxY(b)) - 1
    ensures MaxY(r) + 1.0 == (TileOf(MaxY(b)) * TILE_SIZE) as real
  {
    var reset := TileCoordFromCoord(Point(0.0, MaxY(b)), Point(0.0, 0.0));
    TileOfUnique(reset.y - 1.0, TileOf(MaxY(b)) - 1);
    WithMaxY(b, reset.y - 1.0).(dy := 0.0)
  }

  const NoOffset: Point := Point(0.0, 0.0)

  /**
    Moves the body horizontally by `dist`, its speed times the frame time; a
    colliding body that then touches a wall on the side its speed points to is
    pushed back out and stopped.
  */
  function MoveX<T(==)>(b: Body, g: Grid<T>, wall: T, dist: real): (r: Body)
    ensures r == b.(x := r.x, dx := r.dx)
  {
    var moved := b.(x := b.x + dist);
    if !moved.canCollide then moved
    else if moved.dx < 0.0 then
      if TouchingTile(moved, g, wall, Some(Left), NoOffset) then OnLeftCollision(moved) else moved
    else if moved.dx > 0.0 then
      if TouchingTile(moved, g, wall, Some(Right), NoOffset) then OnRightCollision(moved) else moved
    else moved
  }

  /**
    A horizontal move either keeps the speed and travels the full distance, or
    it stops the body, which happens exactly when it collides and touches a
    wall on the side it moves towards; the body then lies in the column next
    to the wall's.
  */
  lemma MoveXStopsAtWalls<T>(b: Body, g: Grid<T>, wall: T, dist: real)
    ensures var r := MoveX(b, g, wall, dist);
            var moved := b.(x := b.x + dist);
            && (r.dx == b.dx ==> r == moved)
            && (r.dx != b.dx <==> b.canCollide && ((b.dx < 0.0 && TouchingTile(moved, g, wall, Some(Left), NoOffset))
                                                || (b.dx > 0.0 && TouchingTile(moved, g, wall, Some(Right), NoOffset))))
            && (r.dx != b.dx ==> r.dx == 0.0)
            && (r.dx != b.dx && b.dx < 0.0 ==> TileOf(MinX(r)) == TileOf(MinX(moved)) + 1)
            && (r.dx != b.dx && b.dx > 0.0 ==> TileOf(MaxX(r)) == TileOf(MaxX(moved)) - 1)
  {
  }

  /**
    Moves the body vertically by `dist`, its speed times the frame time; a
    colliding body that then touches a wall on the side its speed points to is
    pushed back out and stopped.
  */
  function MoveY<T(==)>(b: Body, g: Grid<T>, wall: T, dist: real): (r: Body)
    ensures r == b.(y := r.y, dy := r.dy)
  {
    var moved := b.(y := b.y + dist);
    if !moved.canCollide then moved
    else if moved.dy < 0.0 then
      if TouchingTile(moved, g, wall, Some(Up), NoOffset) then OnUpCollision(moved) else moved
    else if moved.dy > 0.0 then
      if TouchingTile(moved, g, wall, Some(Down), NoOffset) then OnDownCollision(moved) else moved
    else moved
  }

  /**
    A vertical move either keeps the speed and travels the full distance, or
    it stops the body, which happens exactly when it collides and touches a
    wall on the side it moves towards; the body then lies in the row next to
    the wall's.
  */
  lemma MoveYStopsAtWalls<T>(b: Body, g: Grid<T>, wall: T, dist: real)
    ensures var r := MoveY(b, g, wall, dist);
            var moved := b.(y := b.y + dist);
            && (r.dy == b.dy ==> r == moved)
            && (r.dy != b.dy <==> b.canCollide && ((b.dy < 0.0 && TouchingTile(moved, g, wall, Some(Up), NoOffset))
                                                || (b.dy > 0.0 && TouchingTile(moved, g, wall, Some(Down), NoOffset))))
            && (r.dy != b.dy ==> r.dy == 0.0)
            && (r.dy != b.dy && b.dy < 0.0 ==> TileOf(MinY(r)) == TileOf(MinY(moved)) + 1)
            && (r.dy != b.dy && b.dy > 0.0 ==> TileOf(MaxY(r)) == TileOf(MaxY(moved)) - 1)
  {
  }

  /** A horizontal move, then a vertical one. */
  function Move<T(==)>(b: Body, g: Grid<T>, wall: T, dt: real): (r: Body)
    ensures r == b.(x := r.x, y := r.y, dx := r.dx, dy := r.dy)
  {
    var bx := MoveX(b, g, wall, b.dx * dt);
    MoveY(bx, g, wall, bx.dy * dt)
  }

  /** A move either keeps each component of the speed or stops it. */
  lemma MoveKeepsOrStopsSpeed<T>(b: Body, g: Grid<T>, wall: T, dt: real)
    ensures var r := Move(b, g, wall, dt);
            (r.dx == b.dx || r.dx == 0.0) && (r.dy == b.dy || r.dy == 0.0)
  {
    MoveXStopsAtWalls(b, g, wall, b.dx * dt);
    var bx := MoveX(b, g, wall, b.dx * dt);
    MoveYStopsAtWalls(bx, g, wall, bx.dy * dt);
  }

  /** A body that does not collide just travels by its speed. */
  lemma NonCollidingMovesFreely<T>(b: Body, g: Grid<T>, wall: T, dt: real)
    requires !b.canCollide
    ensures Move(b, g, wall, dt) == b.(x := b.x + b.dx * dt, y := b.y + b.dy * dt)
  {
  }

  /** One physics step: advance the animation clock, fall, damp, move. */
  function Step<T(==)>(b: Body, g: Grid<T>, wall: T, dt: real): (r: Body)
    ensures r.w == b.w && r.h == b.h && r.canCollide == b.canCollide && r.facing == b.facing
    ensures r.animCount == b.animCount + dt
  {
    var b1 := b.(animCount := b.animCount + dt);
    Move(DampX(ApplyGravity(b1, dt), dt), g, wall, dt)
  }

  /**
    Over one step the vertical speed gains gravity times the time step and
    the horizontal speed is damped by the damping rate times the time step,
    unless a wall stops either; only the position, the speed and the clock
    change.
  */
  lemma StepSpeeds<T>(b: Body, g: Grid<T>, wall: T, dt: real)
    ensures Step(b, g, wall, dt).dy == b.dy + b.gravity * dt || Step(b, g, wall, dt).dy == 0.0
    ensures Step(b, g, wall, dt).dx == DampedDx(b.dx, b.xDampAmt * dt) || Step(b, g, wall, dt).dx == 0.0
    ensures Step(b, g, wall, dt).gravity == b.gravity && Step(b, g, wall, dt).xDampAmt == b.xDampAmt
  {
    var b1 := b.(animCount := b.animCount + dt);
    var b2 := DampX(ApplyGravity(b1, dt), dt);
    assert b2.dx == DampedDx(b.dx, b.xDampAmt * dt) && b2.dy == b.dy + b.gravity * dt;
    assert Step(b, g, wall, dt) == Move(b2, g, wall, dt);
    MoveKeepsOrStopsSpeed(b2, g, wall, dt);
  }


  /** Whether the interiors of two bodies overlap. */
  predicate TouchingEntity(a: Body, b: Body) {
    MaxX(a) > MinX(b) && MinX(a) < MaxX(b) && MaxY(a) > MinY(b) && MinY(a) < MaxY(b)
  }

  /** Whether `p` lies strictly inside the body. */
  predicate StrictlyInside(b: Body, p: Point) {
    MinX(b) < p.x < MaxX(b) && MinY(b) < p.y < MaxY(b)
  }

  /** Touching is symmetric. */
  lemma TouchingEntitySymmetric(a: Body, b: Body)
    ensures TouchingEntity(a, b) <==> TouchingEntity(b, a)
  {
  }

  /** Two bodies touch exactly when some point lies strictly inside both; bodies that only share an edge do not touch. */
  lemma TouchingEntityIsSharedInterior(a: Body, b: Body)
    requires a.w > 0.0 && a.h > 0.0 && b.w > 0.0 && b.h > 0.0
    ensures TouchingEntity(a, b) <==> exists p :: StrictlyInside(a, p) && StrictlyInside(b, p)
  {
    if TouchingEntity(a, b) {
      var lx := if MinX(a) < MinX(b) then MinX(b) else MinX(a);
      var hx := if MaxX(a) < MaxX(b) then MaxX(a) else MaxX(b);
      var ly := if MinY(a) < MinY(b) then MinY(b) else MinY(a);
      var hy := if MaxY(a) < MaxY(b) then MaxY(a) else MaxY(b);
      var p := Point((lx + hx) / 2.0, (ly + hy) / 2.0);
      assert StrictlyInside(a, p) && StrictlyInside(b, p);
    }
  }
}
