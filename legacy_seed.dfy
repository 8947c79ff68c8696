/**
  The earlier seed: an entity that only runs and jumps over the single-layer
  tile grid. Its update is proved against the value-level step Step.
*/
module LegacySeed {
  import opened Common
  import opened Constants
  import opened Entities
  import B = Bodies
  import S = Seeds
  import LT = LegacyTiles

  /** The body of a new seed: a plain entity 10 pixels wide and 12 high. */
  function NewSeedBody(): (b: B.Body)
    ensures b.w == 160.0 && b.h == 192.0
    ensures b == B.NewBody().(w := b.w, h := b.h)
  {
    B.NewBody().(w := PhysFromPx(10) as real, h := PhysFromPx(12) as real)
  }

  /**
    One tick of the seed on the grid `g`: the clock advances; it jumps when
    the jump key was pressed this frame while it is on the ground; it runs
    left or right on one of those keys alone and otherwise slows down; then
    it falls and moves against the walls (see StepChanges).
  */
  function Step(b: B.Body, runSpeed: real, jumpSpeed: real, g: Grid<LT.Tile>, k: S.Keys, dt: real): B.Body {
    B.Move(Fallen(b, runSpeed, jumpSpeed, g, k, dt), g, LT.Wall, dt)
  }

  /** The body a tick moves: clock advanced, launched, steered and pulled down by gravity. */
  function Fallen(b: B.Body, runSpeed: real, jumpSpeed: real, g: Grid<LT.Tile>, k: S.Keys, dt: real): B.Body {
    B.ApplyGravity(S.Steer(Launch(b.(animCount := b.animCount + dt), jumpSpeed, g, k), runSpeed, k, dt), dt)
  }

  /** Before it moves, a tick has set the horizontal speed and facing by the keys, and the vertical speed by the jump and gravity. */
  lemma FallenSpeeds(b: B.Body, runSpeed: real, jumpSpeed: real, g: Grid<LT.Tile>, k: S.Keys, dt: real)
    ensures var steered := S.Steer(b, runSpeed, k, dt);
            var dy := if k.jumpPressed && B.OnGround(b, g, LT.Wall) then -jumpSpeed else b.dy;
            Fallen(b, runSpeed, jumpSpeed, g, k, dt)
              == b.(animCount := b.animCount + dt, dx := steered.dx, facing := steered.facing, dy := dy + b.gravity * dt)
  {
    var jumps := k.jumpPressed && B.OnGround(b, g, LT.Wall);
    var b1 := b.(animCount := b.animCount + dt, dy := if jumps then -jumpSpeed else b.dy);
    LaunchIgnoresClock(b, jumpSpeed, g, k, dt);
    SteerOnlyHorizontal(b, b1, runSpeed, k, dt);
  }

  /** Whether the seed jumps does not depend on its clock. */
  lemma LaunchIgnoresClock(b: B.Body, jumpSpeed: real, g: Grid<LT.Tile>, k: S.Keys, dt: real)
    ensures var jumps := k.jumpPressed && B.OnGround(b, g, LT.Wall);
            Launch(b.(animCount := b.animCount + dt), jumpSpeed, g, k)
              == b.(animCount := b.animCount + dt, dy := if jumps then -jumpSpeed else b.dy)
  {
  }

  /**
    A tick changes only the position, the speed, the facing and the clock.
    Each speed component is the one the keys and gravity give, or is stopped
    by a wall: a jump sets the upward speed before gravity acts.
  */
  lemma StepChanges(b: B.Body, runSpeed: real, jumpSpeed: real, g: Grid<LT.Tile>, k: S.Keys, dt: real)
    ensures var r := Step(b, runSpeed, jumpSpeed, g, k, dt);
            var jumps := k.jumpPressed && B.OnGround(b, g, LT.Wall);
            var steered := S.Steer(b, runSpeed, k, dt);
            && r == b.(x := r.x, y := r.y, dx := r.dx, dy := r.dy, facing := steered.facing, animCount := b.animCount + dt)
            && (r.dx == steered.dx || r.dx == 0.0)
            && (jumps ==> r.dy == -jumpSpeed + b.gravity * dt || r.dy == 0.0)
            && (!jumps ==> r.dy == b.dy + b.gravity * dt || r.dy == 0.0)
  {
    FallenSpeeds(b, runSpeed, jumpSpeed, g, k, dt);
    B.MoveKeepsOrStopsSpeed(Fallen(b, runSpeed, jumpSpeed, g, k, dt), g, LT.Wall, dt);
  }

  /** The jump of a tick: the upward speed is set when the key was pressed this frame on the ground. */
  function Launch(b: B.Body, jumpSpeed: real, g: Grid<LT.Tile>, k: S.Keys): (r: B.Body)
    ensures r == b.(dy := r.dy)
    ensures k.jumpPressed && B.OnGround(b, g, LT.Wall) ==> r.dy == -jumpSpeed
    ensures r.dy != b.dy ==> k.jumpPressed && B.OnGround(b, g, LT.Wall)
  {
    if k.jumpPressed && B.OnGround(b, g, LT.Wall) then b.(dy := -jumpSpeed) else b
  }

  /** Steering reads and writes only the horizontal speed and the facing. */
  lemma SteerOnlyHorizontal(b: B.Body, b1: B.Body, runSpeed: real, k: S.Keys, dt: real)
    requires b1 == b.(dy := b1.dy, animCount := b1.animCount)
    ensures var steered := S.Steer(b, runSpeed, k, dt);
            S.Steer(b1, runSpeed, k, dt) == b1.(dx := steered.dx, facing := steered.facing)
  {
    if k.left && !k.right {
    } else if k.right && !k.left {
    } else {
      assert B.DampX(b1, dt) == b1.(dx := B.DampX(b, dt).dx);
    }
  }

  /**
    The animation the seed shows: a jump frame chosen by the vertical speed
    while it is off the ground, else running while it moves sideways, else standing.
  */
  function AnimationName(onGround: bool, dx: real, dy: real, jumpSpeed: real): (name: string)
    ensures !onGround ==> name == "jump" + S.BandSuffix(S.JumpBand(dy, jumpSpeed))
    ensures name == "run" <==> onGround && B.Abs(dx) > 0.01
    ensures name == "stand" <==> onGround && B.Abs(dx) <= 0.01
  {
    var name := if B.Abs(dx) > 0.01 then "run" else "stand";
    if !onGround then "jump" + S.BandSuffix(S.JumpBand(dy, jumpSpeed)) else name
  }

  /** The current seed, when it is not planting, shows the animation the earlier one did. */
  lemma AnimationKept(onGround: bool, dx: real, dy: real, jumpSpeed: real)
    ensures S.AnimationName(false, onGround, dx, dy, jumpSpeed).name == AnimationName(onGround, dx, dy, jumpSpeed)
  {
  }

  class Seed {
    const body: Entity
    const runSpeed: real := 1.5 * (PHYSICS_SCALE * FPS) as real
    const jumpSpeed: real := 2.5 * (PHYSICS_SCALE * FPS) as real

    constructor()
      ensures fresh(body)
      ensures body.State() == NewSeedBody()
      ensures runSpeed == 1440.0 && jumpSpeed == 2400.0
    {
      var e := new Entity();
      e.w := PhysFromPx(10) as real;
      e.h := PhysFromPx(12) as real;
      body := e;
    }

    method Jump()
      modifies body
      ensures body.State() == old(body.State()).(dy := -jumpSpeed)
    {
      body.dy := -jumpSpeed;
    }

    method MoveLeft(dt: real)
      modifies body
      ensures body.State() == old(body.State()).(dx := -runSpeed, facing := FacingLeft)
    {
      body.dx := -runSpeed;
      body.facingDir := FacingLeft;
    }

    method MoveRight(dt: real)
      modifies body
      ensures body.State() == old(body.State()).(dx := runSpeed, facing := FacingRight)
    {
      body.dx := runSpeed;
      body.facingDir := FacingRight;
    }

    /** One tick on the grid `g` with the keys `keys` of this frame. */
    method Update(g: Grid<LT.Tile>, keys: S.Keys, dt: real)
      modifies body
      ensures body.State() == Step(old(body.State()), runSpeed, jumpSpeed, g, keys, dt)
    {
      Accelerate(g, keys, dt);
      body.Move(g, LT.Wall, dt);
    }

    /** Everything a tick does before the move: the clock, the jump, the steering and gravity. */
    method Accelerate(g: Grid<LT.Tile>, keys: S.Keys, dt: real)
      modifies body
      ensures body.State() == Fallen(old(body.State()), runSpeed, jumpSpeed, g, keys, dt)
    {
      body.animCount := body.animCount + dt;
      JumpIfOnGround(g, keys);
      Steer(keys, dt);
      body.ApplyGravity(dt);
    }

    /** The jump of one tick: only when the key was pressed this frame and the seed is on the ground. */
    method JumpIfOnGround(g: Grid<LT.Tile>, keys: S.Keys)
      modifies body
      ensures body.State() == Launch(old(body.State()), jumpSpeed, g, keys)
    {
      var onGround := body.IsOnGround(g, LT.Wall);
      if keys.jumpPressed && onGround {
        Jump();
      }
    }

    /** Runs on the left or right key alone, and otherwise slows down. */
    method Steer(keys: S.Keys, dt: real)
      modifies body
      ensures body.State() == S.Steer(old(body.State()), runSpeed, keys, dt)
    {
      if keys.left && !keys.right {
        MoveLeft(dt);
      } else if keys.right && !keys.left {
        MoveRight(dt);
      } else {
        body.DampX(dt);
      }
    }

    /** The animation the seed shows on the grid `g`. */
    method Animation(g: Grid<LT.Tile>) returns (name: string)
      ensures name == AnimationName(B.OnGround(body.State(), g, LT.Wall), body.dx, body.dy, jumpSpeed)
    {
      name := "stand";
      if B.Abs(body.dx) > 0.01 {
        name := "run";
      }
      var onGround := body.IsOnGround(g, LT.Wall);
      if !onGround {
        name := "jump" + S.BandSuffix(S.JumpBand(body.dy, jumpSpeed));
      }
    }
  }
}
