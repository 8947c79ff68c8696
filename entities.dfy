/**
  An entity of the level: a box with a velocity that falls, is damped and
  collides with the wall tiles of the level's grid. Its methods update its
  fields in place; each is proved against the value-level physics of Bodies.
  The grid is passed to the methods that read it, as a snapshot of the level's
  tiles (moving an entity never changes them).
*/
module Entities {
  import opened Common
  import opened Layers
  import B = Bodies

  class Entity {
    var x: real
    var y: real
    var w: real
    var h: real
    var dx: real
    var dy: real
    var gravity: real
    var xDampAmt: real
    var animCount: real
    var facingDir: FacingDir
    var canCollide: bool

    /** The entity's fields as a value. */
    function State(): B.Body
      reads this
    {
      B.Body(x, y, w, h, dx, dy, gravity, xDampAmt, animCount, facingDir, canCollide)
    }

    constructor()
      ensures State() == B.NewBody()
    {
      x, y, w, h, dx, dy := 0.0, 0.0, 0.0, 0.0, 0.0, 0.0;
      gravity, xDampAmt, animCount := B.GRAVITY, B.X_DAMP, 0.0;
      facingDir, canCollide := FacingRight, true;
    }

    function MinX(): real reads this { B.MinX(State()) }
    function MinY(): real reads this { B.MinY(State()) }
    function MaxX(): real reads this { B.MaxX(State()) }
    function MaxY(): real reads this { B.MaxY(State()) }
    function MidX(): real reads this { B.MidX(State()) }
    function MidY(): real reads this { B.MidY(State()) }

    method SetMinX(v: real)
      modifies this
      ensures State() == B.WithMinX(old(State()), v)
    {
      x := v;
    }

    method SetMaxX(v: real)
      modifies this
      ensures State() == B.WithMaxX(old(State()), v)
    {
      x := v - w;
    }

    method SetMidX(v: real)
      modifies this
      ensures State() == B.WithMidX(old(State()), v)
    {
      x := v - w / 2.0;
    }

    method SetMinY(v: real)
      modifies this
      ensures State() == B.WithMinY(old(State()), v)
    {
      y := v;
    }

    method SetMaxY(v: real)
      modifies this
      ensures State() == B.WithMaxY(old(State()), v)
    {
      y := v - h;
    }

    method SetMidY(v: real)
      modifies this
      ensures State() == B.WithMidY(old(State()), v)
    {
      y := v - h / 2.0;
    }

    /** One physics step: advance the animation clock, fall, damp, move. */
    method Update<T(==)>(g: Grid<T>, wall: T, dt: real)
      modifies this
      ensures State() == B.Step(old(State()), g, wall, dt)
    {
      animCount := animCount + dt;
      ApplyGravity(dt);
      DampX(dt);
      Move(g, wall, dt);
    }

    method ApplyGravity(dt: real)
      modifies this
      ensures State() == B.ApplyGravity(old(State()), dt)
    {
      dy := dy + gravity * dt;
    }

    method DampX(dt: real)
      modifies this
      ensures State() == B.DampX(old(State()), dt)
    {
      var damp := xDampAmt * dt;
      if dx > damp {
        dx := dx - damp;
      } else if dx < -damp {
        dx := dx + damp;
      } else {
        dx := 0.0;
      }
    }

    method Move<T(==)>(g: Grid<T>, wall: T, dt: real)
      modifies this
      ensures State() == B.Move(old(State()), g, wall, dt)
    {
      MoveX(g, wall, dt);
      MoveY(g, wall, dt);
    }

    method MoveX<T(==)>(g: Grid<T>, wall: T, dt: real)
      modifies this
      ensures State() == B.MoveX(old(State()), g, wall, old(dx) * dt)
    {
      x := x + dx * dt;
      if !canCollide {
        return;
      }
      if dx < 0.0 {
        var touching := IsTouchingTile(g, wall, Some(Left), B.NoOffset);
        if touching {
          OnLeftCollision();
        }
      } else if dx > 0.0 {
        var touching := IsTouchingTile(g, wall, Some(Right), B.NoOffset);
        if touching {
          OnRightCollision();
        }
      }
    }

    method MoveY<T(==)>(g: Grid<T>, wall: T, dt: real)
      modifies this
      ensures State() == B.MoveY(old(State()), g, wall, old(dy) * dt)
    {
      y := y + dy * dt;
      if !canCollide {
        return;
      }
      if dy < 0.0 {
        var touching := IsTouchingTile(g, wall, Some(Up), B.NoOffset);
        if touching {
          OnUpCollision();
        }
      } else if dy > 0.0 {
        var touching := IsTouchingTile(g, wall, Some(Down), B.NoOffset);
        if touching {
          OnDownCollision();
        }
      }
    }

    method OnLeftCollision()
      modifies this
      ensures State() == B.OnLeftCollision(old(State()))
    {
      var resetPos := TileCoordFromCoord(Point(MinX(), 0.0), Point(1.0, 0.0));
      SetMinX(resetPos.x + 1.0);
      dx := 0.0;
    }

    method OnRightCollision()
      modifies this
      ensures State() == B.OnRightCollision(old(State()))
    {
      var resetPos := TileCoordFromCoord(Point(MaxX(), 0.0), Point(0.0, 0.0));
      SetMaxX(resetPos.x - 1.0);
      dx := 0.0;
    }

    method OnUpCollision()
      modifies this
      ensures State() == B.OnUpCollision(old(State()))
    {
      var resetPos := TileCoordFromCoord(Point(0.0, MinY()), Point(0.0, 1.0));
      SetMinY(resetPos.y + 1.0);
      dy := 0.0;
    }

    method OnDownCollision()
      modifies this
      ensures State() == B.OnDownCollision(old(State()))
    {
      var resetPos := TileCoordFromCoord(Point(0.0, MaxY()), Point(0.0, 0.0));
      SetMaxY(resetPos.y - 1.0);
      dy := 0.0;
    }

    /** Checks the corners facing `dir` one by one, stopping at the first whose tile is `tile`. */
    method IsTouchingTile<T(==)>(g: Grid<T>, tile: T, dir: Option<Dir>, off: Point) returns (touching: bool)
      ensures touching == B.TouchingTile(State(), g, tile, dir, off)
    {
      var corners := CornersInDirection(dir);
      ghost var body := State();
      var i := 0;
      while i < |corners|
        invariant 0 <= i <= |corners|
        invariant forall k :: 0 <= k < i ==> g(CellOfCoord(B.CornerPoint(body, corners[k], off))) != tile
      {
        var corner := corners[i];
        var p := Point(x + (if corner.right then w else 0.0) + off.x, y + (if corner.bottom then h else 0.0) + off.y);
        assert p == B.CornerPoint(body, corner, off);
        if g(CellOfCoord(p)) == tile {
          return true;
        }
        i := i + 1;
      }
      return false;
    }

    method IsOnGround<T(==)>(g: Grid<T>, wall: T) returns (onGround: bool)
      ensures onGround == B.OnGround(State(), g, wall)
    {
      onGround := IsTouchingTile(g, wall, Some(Down), Point(0.0, 1.0));
    }

    /**
      Whether this entity and `other` overlap (see
      Bodies.TouchingEntityIsSharedInterior); the answer is the same seen from
      either of them.
    */
    function IsTouchingEntity(other: Entity): (r: bool)
      reads this, other
      ensures r <==> B.TouchingEntity(other.State(), State())
    {
      B.TouchingEntitySymmetric(State(), other.State());
      B.TouchingEntity(State(), other.State())
    }
  }
}
