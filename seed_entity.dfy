/**
  The seed as an object of the level: an entity body plus the seed's own
  fields, updated in place. Its update is proved against Seeds.Update and
  its growth against Seeds.GrownBase and Seeds.GrownObjects.
*/
module SeedEntity {
  import opened Common
  import opened Constants
  import opened Layers
  import opened BaseLayer
  import opened ObjectLayer
  import opened TileGrid
  import opened Entities
  import B = Bodies
  import S = Seeds

  /** A sprite a growing seed adds to the level's entities. */
  datatype Spawn = FlowerSprite(midX: real, maxY: real) | ExplosionSprite(midX: real, midY: real)

  /** The tiles a seed reads, as values. */
  function ViewOf(tiles: Tiles): S.View
    reads tiles, tiles.base, tiles.objects
  {
    S.View(tiles.Physics(), tiles.base.cell, tiles.objects.cell)
  }

  /** Whether the sweep of the explosion has visited `q` when it is at offset column i-1, offset row j-1. */
  predicate Blasted(c: Index, i: int, j: int, q: Index) {
    S.Near(c, q) && (q.x - c.x + 1 < i || (q.x - c.x + 1 == i && q.y - c.y + 1 < j))
  }

  /** Whether the vine loop has grown `q` after `d` steps up the column from `c`. */
  predicate Climbed(c: Index, d: int, q: Index) {
    q.x == c.x && c.y - d < q.y <= c.y
  }

  class Seed {
    const body: Entity
    var runSpeed: real
    var jumpSpeed: real
    var planting: bool
    var planted: bool
    var plantX: real
    var controlledByPlayer: bool
    var kind: S.SeedType
    var done: bool

    /** The seed's fields as a value. */
    function State(): S.SeedState
      reads this, body
    {
      S.SeedState(body.State(), runSpeed, jumpSpeed, planting, planted, plantX, controlledByPlayer, kind, done)
    }

    /** The cell at the middle of the seed's bottom edge, where it grows. */
    function Spot(): Index
      reads this, body
    {
      CellOfCoord(Point(body.MidX(), body.MaxY()))
    }

    constructor()
      ensures fresh(body)
      ensures State() == S.NewSeed()
    {
      var e := new Entity();
      e.w := PhysFromPx(10) as real;
      e.h := PhysFromPx(12) as real;
      e.gravity := 0.13 * (PHYSICS_SCALE * FPS * FPS) as real;
      body := e;
      runSpeed := 1.5 * (PHYSICS_SCALE * FPS) as real;
      jumpSpeed := 3.0 * (PHYSICS_SCALE * FPS) as real;
      planting, planted, plantX := false, false, 0.0;
      controlledByPlayer, kind, done := true, S.Sprout, false;
    }

    method Jump()
      modifies body
      ensures body.State() == old(body.State()).(dy := -jumpSpeed)
    {
      body.dy := -jumpSpeed;
    }

    method MoveLeft()
      modifies body
      ensures body.State() == old(body.State()).(dx := -runSpeed, facing := FacingLeft)
    {
      body.dx := -runSpeed;
      body.facingDir := FacingLeft;
    }

    method MoveRight()
      modifies body
      ensures body.State() == old(body.State()).(dx := runSpeed, facing := FacingRight)
    {
      body.dx := runSpeed;
      body.facingDir := FacingRight;
    }

    /** Whether the seed stands on a wall or a one-way platform. */
    method IsStanding(tiles: Tiles) returns (standing: bool)
      ensures standing == S.Standing(body.State(), tiles.Physics())
    {
      var physics := tiles.Physics();
      standing := body.IsTouchingTile(physics, PhysicTile.Wall, Some(Down), S.Feet);
      if !standing {
        standing := body.IsTouchingTile(physics, PhysicTile.OneWayPlatform, Some(Down), S.Feet);
      }
    }

    /** Whether the seed stands on dirt it can plant itself in. */
    method CanPlant(tiles: Tiles) returns (can: bool)
      ensures can == S.CanPlant(body.State(), tiles.base.cell)
    {
      can := body.IsTouchingTile(tiles.base.cell, BaseTile.Dirt, Some(Down), S.Feet);
    }

    /** The first of the coordinates `xs` with a glowing spot at height `y`. */
    method FirstGlow(tiles: Tiles, xs: seq<real>, y: real) returns (found: Option<nat>)
      ensures found == S.FirstHit(S.GlowHits(xs, tiles.objects.cell, y))
    {
      var i := 0;
      while i < |xs|
        invariant 0 <= i <= |xs|
        invariant forall k :: 0 <= k < i ==> !S.GlowAt(tiles.objects.cell, xs[k], y)
      {
        if tiles.objects.GetTileAtCoord(Point(xs[i], y)) == ObjectTile.Glow {
          S.FirstHitUnique(S.GlowHits(xs, tiles.objects.cell, y), i);
          return Some(i);
        }
        i := i + 1;
      }
      return None;
    }

    /** The last of the coordinates `xs` with dirt at height `y`. */
    method LastDirt(tiles: Tiles, xs: seq<real>, y: real) returns (found: Option<nat>)
      ensures found == S.LastHit(S.DirtHits(xs, tiles.base.cell, y))
    {
      found := None;
      var i := 0;
      while i < |xs|
        invariant 0 <= i <= |xs|
        invariant found.None? ==> forall k :: 0 <= k < i ==> !S.DirtAt(tiles.base.cell, xs[k], y)
        invariant found.Some? ==> found.value < i && S.DirtAt(tiles.base.cell, xs[found.value], y)
        invariant found.Some? ==> forall k :: found.value < k < i ==> !S.DirtAt(tiles.base.cell, xs[k], y)
      {
        if tiles.base.GetTileAtCoord(Point(xs[i], y)) == BaseTile.Dirt {
          found := Some(i);
        }
        i := i + 1;
      }
      if found.Some? {
        S.LastHitUnique(S.DirtHits(xs, tiles.base.cell, y), found.value);
      }
    }

    /**
      The column a seed standing with its bottom at `y` settles in, trying the
      coordinates `xs`. The source's second loop stores the centre of every
      column with dirt and so keeps the last; here the last is found first.
    */
    method PlantTarget(tiles: Tiles, xs: seq<real>, y: real) returns (target: real)
      ensures target == S.PlantTarget(kind, xs, tiles.objects.cell, tiles.base.cell, y, plantX)
    {
      if kind == S.Flower {
        var glow := FirstGlow(tiles, xs, y);
        if glow.Some? {
          return TileCoordFromCoord(Point(xs[glow.value], 0.0), Point(0.5, 0.0)).x;
        }
      }
      var dirt := LastDirt(tiles, xs, y + 1.0);
      target := plantX;
      if dirt.Some? {
        target := TileCoordFromCoord(Point(xs[dirt.value], 0.0), Point(0.5, 0.0)).x;
      }
    }

    /** Starts planting: restarts the clock and picks the column to settle in. */
    method Plant(tiles: Tiles)
      modifies this, body
      ensures State() == S.Plant(old(State()), ViewOf(tiles))
    {
      ghost var s0 := State();
      var target := PlantTarget(tiles, [body.MidX(), body.MinX(), body.MaxX()], body.MaxY());
      assert target == S.PlantTarget(s0.kind, S.Candidates(s0.body), tiles.objects.cell, tiles.base.cell, B.MaxY(s0.body), s0.plantX);
      planting := true;
      body.animCount := 0.0;
      plantX := target;
      assert State() == s0.(planting := true, body := s0.body.(animCount := 0.0), plantX := target);
    }

    /** A planting seed's tick after its clock has advanced: slide to the column, and finish planting. */
    method Settle(ease: real, plantDuration: real) returns (endDay: Option<real>)
      modifies this, body
      ensures (State(), endDay) == S.Settle(old(State()), ease, plantDuration)
    {
      body.SetMidX(S.Lerp(body.MidX(), plantX, ease));
      endDay := None;
      if body.animCount > plantDuration {
        if !planted && controlledByPlayer {
          endDay := Some(if kind == S.Bomb then 0.5 else 0.0);
        }
        planted := true;
      }
    }

    /** A free seed jumps, or else starts planting, on the keys `k` of this frame. */
    method Act(tiles: Tiles, k: S.Keys)
      modifies this, body
      ensures State() == S.Act(old(State()), ViewOf(tiles), k)
    {
      var standing := IsStanding(tiles);
      if standing && k.jumpPressed {
        Jump();
      } else {
        var can := CanPlant(tiles);
        if can && k.plantPressed {
          Plant(tiles);
        }
      }
    }

    /** Runs left or right while exactly one of the two keys is held; otherwise slows down. */
    method Steer(k: S.Keys, dt: real)
      modifies body
      ensures body.State() == S.Steer(old(body.State()), runSpeed, k, dt)
    {
      if k.left && !k.right {
        MoveLeft();
      } else if k.right && !k.left {
        MoveRight();
      } else {
        body.DampX(dt);
      }
    }

    /** A free seed steers or is damped, falls, then moves against the walls. */
    method Run(tiles: Tiles, k: S.Keys, dt: real)
      modifies body
      ensures body.State() == S.Run(old(body.State()), runSpeed, tiles.Physics(), k, dt)
    {
      Steer(k, dt);
      body.ApplyGravity(dt);
      body.Move(tiles.Physics(), PhysicTile.Wall, dt);
    }

    /**
      One tick: a planting seed slides to its column and finishes planting;
      a free seed jumps or starts planting on the keys of this frame, steers,
      falls and moves. Returns the delay with which the day ends, if this
      tick ends it.
    */
    method Update(tiles: Tiles, keys: S.Keys, dt: real, ease: real, plantDuration: real) returns (endDay: Option<real>)
      modifies this, body
      ensures (State(), endDay) == S.Update(old(State()), ViewOf(tiles), keys, dt, ease, plantDuration)
    {
      body.animCount := body.animCount + dt;
      var k := if controlledByPlayer then keys else S.NoKeys;
      if planting {
        endDay := Settle(ease, plantDuration);
        return;
      }
      Act(tiles, k);
      Run(tiles, k, dt);
      endDay := None;
    }

    /** Grows a plant base with its top above it, or a dead plant when a wall leaves no room. */
    method GrowSprout(tiles: Tiles)
      modifies tiles.objects
      ensures forall q :: tiles.objects.cell(q) == S.Sown(S.Sprout, old(tiles.Physics()), old(tiles.objects.cell), Spot(), false, q)
      ensures forall q :: InBox(old(tiles.objects.Extent()), q) ==> InBox(tiles.objects.Extent(), q)
    {
      var pos := Point(body.MidX(), body.MaxY());
      var above := Point(body.MidX(), body.MaxY() - TILE_SIZE as real);
      TileOfShift(body.MaxY(), -1);
      assert CellOfCoord(above) == Above(Spot());
      if tiles.GetTileAtCoord(above) == PhysicTile.Wall {
        tiles.objects.SetTileAtCoord(pos, ObjectTile.DeadPlant);
        return;
      }
      tiles.objects.SetTileAtCoord(pos, ObjectTile.PlantBase);
      tiles.objects.SetTileAtCoord(above, ObjectTile.PlantTop);
    }

    /** Turns the cell under the seed into dirt. */
    method GrowDirt(tiles: Tiles)
      modifies tiles.base
      ensures forall q :: tiles.base.cell(q) == S.GrownBase(S.Dirt, old(tiles.base.cell), Spot(), q)
      ensures InBox(tiles.base.Extent(), Spot())
      ensures forall q :: InBox(old(tiles.base.Extent()), q) ==> InBox(tiles.base.Extent(), q)
    {
      tiles.base.SetTileAtCoord(Point(body.MidX(), body.MaxY()), BaseTile.Dirt);
    }

    /** On a glowing spot a flower appears; elsewhere the seed dies as a dead plant. */
    method TryGrowFlower(tiles: Tiles) returns (spawned: seq<Spawn>)
      modifies tiles.objects
      ensures var onGlow := B.TouchingTile(body.State(), old(tiles.objects.cell), ObjectTile.Glow, None, B.NoOffset);
              && (forall q :: tiles.objects.cell(q) == S.Sown(S.Flower, old(tiles.Physics()), old(tiles.objects.cell), Spot(), onGlow, q))
              && spawned == (if onGlow then [FlowerSprite(body.MidX(), body.MaxY())] else [])
      ensures forall q :: InBox(old(tiles.objects.Extent()), q) ==> InBox(tiles.objects.Extent(), q)
    {
      var onGlow := body.IsTouchingTile(tiles.objects.cell, ObjectTile.Glow, None, B.NoOffset);
      if onGlow {
        spawned := [FlowerSprite(body.MidX(), body.MaxY())];
        return;
      }
      tiles.objects.SetTileAtCoord(Point(body.MidX(), body.MaxY()), ObjectTile.DeadPlant);
      spawned := [];
    }

    /**
      Blows up the 3 x 3 block of cells around the seed: every object there is
      cleared and its dirt hollowed into caves; then one repair pass, over the
      box `swept`, clears what lost its support.
    */
    method Explode(tiles: Tiles) returns (spawned: seq<Spawn>, ghost swept: Box)
      modifies tiles.base, tiles.objects
      ensures forall q :: tiles.base.cell(q) == S.GrownBase(S.Bomb, old(tiles.base.cell), Spot(), q)
      ensures forall q :: tiles.objects.cell(q) == S.GrownObjects(S.Bomb, old(tiles.Physics()), old(tiles.base.cell), old(tiles.objects.cell), Spot(), false, swept, q)
      ensures var centre := TileCoordFromCoord(Point(body.MidX(), body.MaxY()), Point(0.5, 0.5));
              spawned == [ExplosionSprite(centre.x, centre.y)]
      ensures forall q :: InBox(old(tiles.objects.Extent()), q) || InBox(old(tiles.base.Extent()), q) || S.Near(Spot(), q) ==> InBox(swept, q)
    {
      var midX, maxY := body.MidX(), body.MaxY();
      ghost var c := Spot();
      ghost var b0, o0 := tiles.base.cell, tiles.objects.cell;
      ghost var eb, eo := tiles.base.Extent(), tiles.objects.Extent();
      var i := 0;
      while i < 3
        invariant 0 <= i <= 3
        invariant forall q :: InBox(eb, q) ==> InBox(tiles.base.Extent(), q)
        invariant forall q :: InBox(eo, q) || Blasted(c, i, 0, q) ==> InBox(tiles.objects.Extent(), q)
        invariant forall q :: tiles.base.cell(q) == if Blasted(c, i, 0, q) then Exploded(b0(q)) else b0(q)
        invariant forall q :: tiles.objects.cell(q) == if Blasted(c, i, 0, q) then ObjectTile.Empty else o0(q)
      {
        BlastColumn(tiles, b0, o0, eb, eo, i);
        i := i + 1;
      }
      swept := tiles.RepairBox();
      ghost var b1, o1 := tiles.base.cell, tiles.objects.cell;
      tiles.FixInvalidTiles();
      forall q
        ensures tiles.objects.cell(q) == S.GrownObjects(S.Bomb, old(tiles.Physics()), b0, o0, c, false, swept, q)
      {
        RepairedCongruent(b1, S.GrownBaseGrid(S.Bomb, b0, c), o1, S.SownGrid(S.Bomb, old(tiles.Physics()), o0, c, false), swept, q);
      }
      var centre := TileCoordFromCoord(Point(midX, maxY), Point(0.5, 0.5));
      spawned := [ExplosionSprite(centre.x, centre.y)];
    }

    /** Blows up column i - 1 of the 3 x 3 block around the seed, from its top cell down. */
    method BlastColumn(tiles: Tiles, ghost b0: Grid<BaseTile>, ghost o0: Grid<ObjectTile>, ghost eb: Box, ghost eo: Box, i: int)
      requires 0 <= i < 3
      requires forall q :: InBox(eb, q) ==> InBox(tiles.base.Extent(), q)
      requires forall q :: InBox(eo, q) || Blasted(Spot(), i, 0, q) ==> InBox(tiles.objects.Extent(), q)
      requires forall q :: tiles.base.cell(q) == if Blasted(Spot(), i, 0, q) then Exploded(b0(q)) else b0(q)
      requires forall q :: tiles.objects.cell(q) == if Blasted(Spot(), i, 0, q) then ObjectTile.Empty else o0(q)
      modifies tiles.base, tiles.objects
      ensures forall q :: InBox(eb, q) ==> InBox(tiles.base.Extent(), q)
      ensures forall q :: InBox(eo, q) || Blasted(Spot(), i + 1, 0, q) ==> InBox(tiles.objects.Extent(), q)
      ensures forall q :: tiles.base.cell(q) == if Blasted(Spot(), i + 1, 0, q) then Exploded(b0(q)) else b0(q)
      ensures forall q :: tiles.objects.cell(q) == if Blasted(Spot(), i + 1, 0, q) then ObjectTile.Empty else o0(q)
    {
      var midX, maxY := body.MidX(), body.MaxY();
      ghost var c := Spot();
      var j := 0;
      while j < 3
        invariant 0 <= j <= 3
        invariant forall q :: InBox(eb, q) ==> InBox(tiles.base.Extent(), q)
        invariant forall q :: InBox(eo, q) || Blasted(c, i, j, q) ==> InBox(tiles.objects.Extent(), q)
        invariant forall q :: tiles.base.cell(q) == if Blasted(c, i, j, q) then Exploded(b0(q)) else b0(q)
        invariant forall q :: tiles.objects.cell(q) == if Blasted(c, i, j, q) then ObjectTile.Empty else o0(q)
      {
        var p := Point(midX + ((i - 1) * TILE_SIZE) as real, maxY + ((j - 1) * TILE_SIZE) as real);
        TileOfShift(midX, i - 1);
        TileOfShift(maxY, j - 1);
        assert CellOfCoord(p) == Index(c.x + i - 1, c.y + j - 1);
        tiles.ExplodeAtCoord(p);
        j := j + 1;
      }
    }

    /**
      Grows a vine up the column from the seed: each of the cells from the
      seed's own to VINE_HEIGHT above it is blown up and then holds the vine,
      its top in the highest cell; then one repair pass, over the box `swept`.
    */
    method GrowVine(tiles: Tiles) returns (ghost swept: Box)
      modifies tiles.base, tiles.objects
      ensures forall q :: tiles.base.cell(q) == S.GrownBase(S.SeedType.Vine, old(tiles.base.cell), Spot(), q)
      ensures forall q :: tiles.objects.cell(q) == S.GrownObjects(S.SeedType.Vine, old(tiles.Physics()), old(tiles.base.cell), old(tiles.objects.cell), Spot(), false, swept, q)
      ensures forall q :: InBox(old(tiles.objects.Extent()), q) || InBox(old(tiles.base.Extent()), q) || S.OnVine(Spot(), q) ==> InBox(swept, q)
    {
      ghost var c := Spot();
      ghost var b0, o0 := tiles.base.cell, tiles.objects.cell;
      ghost var eb, eo := tiles.base.Extent(), tiles.objects.Extent();
      var d := 0;
      while d <= S.VINE_HEIGHT
        invariant 0 <= d <= S.VINE_HEIGHT + 1
        invariant forall q :: InBox(eb, q) ==> InBox(tiles.base.Extent(), q)
        invariant forall q :: InBox(eo, q) || Climbed(c, d, q) ==> InBox(tiles.objects.Extent(), q)
        invariant forall q :: tiles.base.cell(q) == if Climbed(c, d, q) then Exploded(b0(q)) else b0(q)
        invariant forall q :: tiles.objects.cell(q) == if Climbed(c, d, q) then S.VinePiece(c, q) else o0(q)
      {
        GrowVinePiece(tiles, b0, o0, eb, eo, d);
        d := d + 1;
      }
      swept := tiles.RepairBox();
      ghost var b1, o1 := tiles.base.cell, tiles.objects.cell;
      tiles.FixInvalidTiles();
      forall q
        ensures tiles.objects.cell(q) == S.GrownObjects(S.SeedType.Vine, old(tiles.Physics()), b0, o0, c, false, swept, q)
      {
        RepairedCongruent(b1, S.GrownBaseGrid(S.SeedType.Vine, b0, c), o1, S.SownGrid(S.SeedType.Vine, old(tiles.Physics()), o0, c, false), swept, q);
      }
    }

    /** Blows up the cell d above the seed and puts the vine piece for that height there. */
    method GrowVinePiece(tiles: Tiles, ghost b0: Grid<BaseTile>, ghost o0: Grid<ObjectTile>, ghost eb: Box, ghost eo: Box, d: int)
      requires 0 <= d <= S.VINE_HEIGHT
      requires forall q :: InBox(eb, q) ==> InBox(tiles.base.Extent(), q)
      requires forall q :: InBox(eo, q) || Climbed(Spot(), d, q) ==> InBox(tiles.objects.Extent(), q)
      requires forall q :: tiles.base.cell(q) == if Climbed(Spot(), d, q) then Exploded(b0(q)) else b0(q)
      requires forall q :: tiles.objects.cell(q) == if Climbed(Spot(), d, q) then S.VinePiece(Spot(), q) else o0(q)
      modifies tiles.base, tiles.objects
      ensures forall q :: InBox(eb, q) ==> InBox(tiles.base.Extent(), q)
      ensures forall q :: InBox(eo, q) || Climbed(Spot(), d + 1, q) ==> InBox(tiles.objects.Extent(), q)
      ensures forall q :: tiles.base.cell(q) == if Climbed(Spot(), d + 1, q) then Exploded(b0(q)) else b0(q)
      ensures forall q :: tiles.objects.cell(q) == if Climbed(Spot(), d + 1, q) then S.VinePiece(Spot(), q) else o0(q)
    {
      var midX, maxY := body.MidX(), body.MaxY();
      ghost var c := Spot();
      var p := Point(midX, maxY - (d * TILE_SIZE) as real);
      assert p.y == maxY + ((-d) * TILE_SIZE) as real;
      TileOfShift(maxY, -d);
      assert CellOfCoord(p) == Index(c.x, c.y - d);
      var piece := if d == S.VINE_HEIGHT then ObjectTile.VineTop else ObjectTile.Vine;
      tiles.ExplodeAtCoord(p);
      tiles.objects.SetTileAtCoord(p, piece);
    }

    /**
      Grows the seed by its kind, once: the first call marks the seed done and
      changes the tiles as that kind does; later calls change nothing.
    */
    method Grow(tiles: Tiles) returns (spawned: seq<Spawn>, ghost swept: Box)
      modifies this, tiles.base, tiles.objects
      ensures State() == old(State()).(done := true)
      ensures old(done) ==> spawned == [] && unchanged(tiles.base, tiles.objects)
      ensures !old(done) ==>
                var onGlow := B.TouchingTile(body.State(), old(tiles.objects.cell), ObjectTile.Glow, None, B.NoOffset);
                && (forall q :: tiles.base.cell(q) == S.GrownBase(kind, old(tiles.base.cell), Spot(), q))
                && (forall q :: tiles.objects.cell(q) == S.GrownObjects(kind, old(tiles.Physics()), old(tiles.base.cell), old(tiles.objects.cell), Spot(), onGlow, swept, q))
      ensures !old(done) ==>
                var onGlow := B.TouchingTile(body.State(), old(tiles.objects.cell), ObjectTile.Glow, None, B.NoOffset);
                var centre := TileCoordFromCoord(Point(body.MidX(), body.MaxY()), Point(0.5, 0.5));
                spawned == match kind
                  case Bomb => [ExplosionSprite(centre.x, centre.y)]
                  case Flower => if onGlow then [FlowerSprite(body.MidX(), body.MaxY())] else []
                  case _ => []
      ensures !old(done) && (kind == S.Bomb || kind == S.SeedType.Vine) ==>
                forall q :: InBox(old(tiles.objects.Extent()), q) || InBox(old(tiles.base.Extent()), q) ==> InBox(swept, q)
      ensures !old(done) && kind == S.Bomb ==> forall q :: S.Near(Spot(), q) ==> InBox(swept, q)
      ensures !old(done) && kind == S.SeedType.Vine ==> forall q :: S.OnVine(Spot(), q) ==> InBox(swept, q)
    {
      spawned, swept := [], Box(0, 0, 0, 0);
      if done {
        return;
      }
      ghost var physics, b0, o0, c := tiles.Physics(), tiles.base.cell, tiles.objects.cell, Spot();
      ghost var onGlow := B.TouchingTile(body.State(), o0, ObjectTile.Glow, None, B.NoOffset);
      done := true;
      assert tiles.Physics() == physics && Spot() == c;
      match kind
      case Sprout =>
        GrowSprout(tiles);
        assert forall q :: tiles.objects.cell(q) == S.GrownObjects(kind, physics, b0, o0, c, onGlow, swept, q);
      case Dirt =>
        GrowDirt(tiles);
        assert forall q :: tiles.objects.cell(q) == S.GrownObjects(kind, physics, b0, o0, c, onGlow, swept, q);
      case Bomb =>
        spawned, swept := Explode(tiles);
        assert forall q :: tiles.objects.cell(q) == S.GrownObjects(kind, physics, b0, o0, c, onGlow, swept, q);
      case Flower =>
        spawned := TryGrowFlower(tiles);
        assert forall q :: tiles.objects.cell(q) == S.GrownObjects(kind, physics, b0, o0, c, onGlow, swept, q);
      case Vine =>
        swept := GrowVine(tiles);
        assert forall q :: tiles.objects.cell(q) == S.GrownObjects(kind, physics, b0, o0, c, onGlow, swept, q);
    }
  }
}
