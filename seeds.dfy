/**
  The seed the player controls, as values: its kinds, the cycle the seed
  picker walks through, the animation it shows, where it plants itself, and
  one tick of its update. The class in module SeedEntity is proved against
  these functions.
*/
module Seeds {
  import opened Common
  import opened Constants
  import opened Layers
  import opened BaseLayer
  import opened ObjectLayer
  import opened TileGrid
  import B = Bodies

  datatype SeedType = Sprout | Dirt | Bomb | Flower | Vine

  /** The enum's numeric value. */
  function Ordinal(s: SeedType): nat {
    match s
    case Sprout => 0
    case Dirt => 1
    case Bomb => 2
    case Flower => 3
    case Vine => 4
  }

  /** The kind with numeric value `n`, if there is one. */
  function FromOrdinal(n: int): (r: Option<SeedType>)
    ensures r.Some? <==> 0 <= n < 5
    ensures r.Some? ==> Ordinal(r.value) == n
  {
    if n == 0 then Some(Sprout)
    else if n == 1 then Some(SeedType.Dirt)
    else if n == 2 then Some(Bomb)
    else if n == 3 then Some(Flower)
    else if n == 4 then Some(SeedType.Vine)
    else None
  }

  lemma OrdinalRoundTrip(s: SeedType)
    ensures FromOrdinal(Ordinal(s)) == Some(s)
  {
  }

  /** The numeric value of the kind after `s`: the successor, except that Flower wraps round to Sprout. */
  function NextSeed(s: SeedType): (r: nat)
    ensures s != SeedType.Vine ==> r == (Ordinal(s) + 1) % 4
    ensures s == SeedType.Vine ==> r == 5
  {
    if s == Flower then 0 else Ordinal(s) + 1
  }

  /** The next kind as a kind, where there is one. */
  function Next(s: SeedType): Option<SeedType> {
    FromOrdinal(NextSeed(s))
  }

  /** Sprout, Dirt, Bomb and Flower form a cycle of four that never reaches Vine. */
  lemma NextSeedCycle(s: SeedType)
    requires s != SeedType.Vine
    ensures Next(s).Some? && Next(s).value != SeedType.Vine
    ensures Next(Next(s).value).Some? && Next(Next(Next(s).value).value).Some?
    ensures var s3 := Next(Next(Next(s).value).value).value;
            Next(s3) == Some(s)
    ensures Next(s) != Some(s)
    ensures Next(Next(s).value) != Some(s)
    ensures Next(Next(Next(s).value).value) != Some(s)
  {
  }

  /** The successor of Vine is the value 5, which names no kind. */
  lemma VineHasNoNext()
    ensures NextSeed(SeedType.Vine) == 5 && Next(SeedType.Vine) == None
  {
  }

  /** An animation of the seed's sprite: its name and whether it loops. */
  datatype Animation = Animation(name: string, loop: bool)

  /** The jump band of vertical speed `dy` as a rank, from -2 (rising fastest) to 2 (falling fastest). */
  function JumpBand(dy: real, jumpSpeed: real): (r: int)
    ensures -2 <= r <= 2
  {
    if dy < -0.7 * jumpSpeed then -2
    else if dy < -0.3 * jumpSpeed then -1
    else if dy > 0.7 * jumpSpeed then 2
    else if dy > 0.3 * jumpSpeed then 1
    else 0
  }

  /** The suffix of the jump animation for a band. */
  function BandSuffix(band: int): string {
    if band == -2 then "-up-up"
    else if band == -1 then "-up"
    else if band == 2 then "-down-down"
    else if band == 1 then "-down"
    else "-mid"
  }

  /** With a positive jump speed, a faster fall never shows a more upward jump frame. */
  lemma JumpBandMonotone(dy1: real, dy2: real, jumpSpeed: real)
    requires jumpSpeed > 0.0 && dy1 <= dy2
    ensures JumpBand(dy1, jumpSpeed) <= JumpBand(dy2, jumpSpeed)
  {
  }

  /** Distinct bands have distinct suffixes. */
  lemma BandSuffixInjective(b1: int, b2: int)
    requires -2 <= b1 <= 2 && -2 <= b2 <= 2 && b1 != b2
    ensures BandSuffix(b1) != BandSuffix(b2)
  {
  }

  /**
    The animation of the current seed: planting wins, then being off the
    ground (a jump frame chosen by the vertical speed), then running.
  */
  function AnimationName(planting: bool, standing: bool, dx: real, dy: real, jumpSpeed: real): (a: Animation)
    ensures a.loop <==> !planting
    ensures a.name == "plant" <==> planting
    ensures !planting && !standing ==> a.name == "jump" + BandSuffix(JumpBand(dy, jumpSpeed))
    ensures a.name == "run" <==> !planting && standing && B.Abs(dx) > 0.01
    ensures a.name == "stand" <==> !planting && standing && B.Abs(dx) <= 0.01
  {
    if planting then Animation("plant", false)
    else if !standing then Animation("jump" + BandSuffix(JumpBand(dy, jumpSpeed)), true)
    else if B.Abs(dx) > 0.01 then Animation("run", true)
    else Animation("stand", true)
  }

  /** What the player pressed or holds this frame. */
  datatype Keys = Keys(jumpPressed: bool, plantPressed: bool, left: bool, right: bool)

  /** The keys of a seed nobody controls: nothing pressed, nothing held. */
  const NoKeys: Keys := Keys(false, false, false, false)

  /** The state of a seed: its body and the fields the seed adds to an entity. */
  datatype SeedState = SeedState(body: B.Body, runSpeed: real, jumpSpeed: real,
                                 planting: bool, planted: bool, plantX: real,
                                 controlledByPlayer: bool, kind: SeedType, done: bool)

  /** A new seed: a 10 x 12 pixel body, heavier than a plain entity, not yet planting, player-controlled. */
  function NewSeed(): (s: SeedState)
    ensures s.body.w == 160.0 && s.body.h == 192.0 && s.body.gravity == 7488.0
    ensures s.runSpeed == 1440.0 && s.jumpSpeed == 2880.0
    ensures !s.planting && !s.planted && !s.done && s.controlledByPlayer && s.kind == Sprout
  {
    var b := B.NewBody();
    SeedState(b.(w := PhysFromPx(10) as real, h := PhysFromPx(12) as real,
                 gravity := 0.13 * (PHYSICS_SCALE * FPS * FPS) as real),
              1.5 * (PHYSICS_SCALE * FPS) as real, 3.0 * (PHYSICS_SCALE * FPS) as real,
              false, false, 0.0, true, Sprout, false)
  }

  /** The tiles a seed reads during a tick: the physics grid and the two layers. */
  datatype View = View(physics: Grid<PhysicTile>, base: Grid<BaseTile>, objects: Grid<ObjectTile>)

  /** The point one unit under the bottom edge, where standing and planting look. */
  const Feet: Point := Point(0.0, 1.0)

  /** The cell one unit under the bottom-left corner. */
  function UnderLeft(b: B.Body): Index {
    Index(TileOf(B.MinX(b)), TileOf(B.MaxY(b) + 1.0))
  }

  /** The cell one unit under the bottom-right corner. */
  function UnderRight(b: B.Body): Index {
    Index(TileOf(B.MaxX(b)), TileOf(B.MaxY(b) + 1.0))
  }

  /** Standing: a bottom corner rests, one unit down, on a wall or on a one-way platform. */
  function Standing(b: B.Body, physics: Grid<PhysicTile>): (r: bool)
    ensures r <==> physics(UnderLeft(b)) != PhysicTile.Empty || physics(UnderRight(b)) != PhysicTile.Empty
  {
    B.TouchingBelowFeet(b, physics, PhysicTile.Wall);
    B.TouchingBelowFeet(b, physics, PhysicTile.OneWayPlatform);
    assert physics(UnderLeft(b)) != PhysicTile.Empty <==>
             physics(UnderLeft(b)) == PhysicTile.Wall || physics(UnderLeft(b)) == PhysicTile.OneWayPlatform;
    assert physics(UnderRight(b)) != PhysicTile.Empty <==>
             physics(UnderRight(b)) == PhysicTile.Wall || physics(UnderRight(b)) == PhysicTile.OneWayPlatform;
    B.TouchingTile(b, physics, PhysicTile.Wall, Some(Down), Feet)
    || B.TouchingTile(b, physics, PhysicTile.OneWayPlatform, Some(Down), Feet)
  }

  /** A seed can plant when a bottom corner rests, one unit down, on dirt. */
  function CanPlant(b: B.Body, base: Grid<BaseTile>): (r: bool)
    ensures r <==> base(UnderLeft(b)) == BaseTile.Dirt || base(UnderRight(b)) == BaseTile.Dirt
  {
    B.TouchingBelowFeet(b, base, BaseTile.Dirt);
    B.TouchingTile(b, base, BaseTile.Dirt, Some(Down), Feet)
  }

  /** The horizontal centre of the tile column holding `x`, where a seed settles to plant. */
  function PlantCentre(x: real): (r: real)
    ensures TileOf(r) == TileOf(x)
    ensures r == (TileOf(x) * TILE_SIZE) as real + 127.5
  {
    TileCoordFromCoord(Point(x, 0.0), Point(0.5, 0.0)).x
  }

  /** Whether a glowing spot is at world point (x, y). */
  predicate GlowAt(o: Grid<ObjectTile>, x: real, y: real) {
    o(CellOfCoord(Point(x, y))) == ObjectTile.Glow
  }

  /** Whether dirt is at world point (x, y). */
  predicate DirtAt(b: Grid<BaseTile>, x: real, y: real) {
    b(CellOfCoord(Point(x, y))) == BaseTile.Dirt
  }

  /** The index of the first true entry, if any. */
  function FirstHit(hits: seq<bool>): (r: Option<nat>)
    ensures r.Some? ==> r.value < |hits| && hits[r.value] && forall k :: 0 <= k < r.value ==> !hits[k]
    ensures r.None? ==> forall k :: 0 <= k < |hits| ==> !hits[k]
  {
    if |hits| == 0 then None
    else if hits[0] then Some(0)
    else match FirstHit(hits[1..])
         case Some(i) => Some(i + 1)
         case None => None
  }

  /** The index of the last true entry, if any. */
  function LastHit(hits: seq<bool>): (r: Option<nat>)
    ensures r.Some? ==> r.value < |hits| && hits[r.value] && forall k :: r.value < k < |hits| ==> !hits[k]
    ensures r.None? ==> forall k :: 0 <= k < |hits| ==> !hits[k]
  {
    if |hits| == 0 then None
    else if hits[|hits| - 1] then Some(|hits| - 1)
    else LastHit(hits[..|hits| - 1])
  }

  function GlowHits(xs: seq<real>, o: Grid<ObjectTile>, y: real): (hits: seq<bool>)
    ensures |hits| == |xs| && forall k :: 0 <= k < |xs| ==> hits[k] == GlowAt(o, xs[k], y)
  {
    seq(|xs|, k requires 0 <= k < |xs| => GlowAt(o, xs[k], y))
  }

  function DirtHits(xs: seq<real>, b: Grid<BaseTile>, y: real): (hits: seq<bool>)
    ensures |hits| == |xs| && forall k :: 0 <= k < |xs| ==> hits[k] == DirtAt(b, xs[k], y)
  {
    seq(|xs|, k requires 0 <= k < |xs| => DirtAt(b, xs[k], y))
  }

  /**
    Where a seed of kind `kind` standing with its bottom at `y` settles to
    plant, trying the x coordinates `xs` in order (see PlantTargetChoice).
  */
  function PlantTarget(kind: SeedType, xs: seq<real>, o: Grid<ObjectTile>, b: Grid<BaseTile>, y: real, current: real): (r: real)
    ensures r == current || exists i :: 0 <= i < |xs| && r == PlantCentre(xs[i])
    ensures r != current ==> exists i :: 0 <= i < |xs| && TileOf(r) == TileOf(xs[i])
  {
    var glow := FirstHit(GlowHits(xs, o, y));
    if kind == Flower && glow.Some? then PlantCentre(xs[glow.value])
    else
      match LastHit(DirtHits(xs, b, y + 1.0))
      case Some(i) => PlantCentre(xs[i])
      case None => current
  }

  /**
    A flower seed settles on the first coordinate with a glowing spot at `y`;
    otherwise the last coordinate with dirt one unit below `y` wins; with
    neither the target `current` stays.
  */
  lemma PlantTargetChoice(kind: SeedType, xs: seq<real>, o: Grid<ObjectTile>, b: Grid<BaseTile>, y: real, current: real)
    ensures var r := PlantTarget(kind, xs, o, b, y, current);
            && (kind == Flower && (exists i :: 0 <= i < |xs| && GlowAt(o, xs[i], y)) ==>
                  exists i :: 0 <= i < |xs| && GlowAt(o, xs[i], y) && (forall k :: 0 <= k < i ==> !GlowAt(o, xs[k], y)) && r == PlantCentre(xs[i]))
            && ((kind != Flower || forall i :: 0 <= i < |xs| ==> !GlowAt(o, xs[i], y)) && (exists i :: 0 <= i < |xs| && DirtAt(b, xs[i], y + 1.0)) ==>
                  exists i :: 0 <= i < |xs| && DirtAt(b, xs[i], y + 1.0) && (forall k :: i < k < |xs| ==> !DirtAt(b, xs[k], y + 1.0)) && r == PlantCentre(xs[i]))
            && ((kind != Flower || forall i :: 0 <= i < |xs| ==> !GlowAt(o, xs[i], y)) && (forall i :: 0 <= i < |xs| ==> !DirtAt(b, xs[i], y + 1.0)) ==>
                  r == current)
  {
    var glow := FirstHit(GlowHits(xs, o, y));
    var dirt := LastHit(DirtHits(xs, b, y + 1.0));
    if kind == Flower && glow.Some? {
      assert GlowAt(o, xs[glow.value], y);
    } else if dirt.Some? {
      assert DirtAt(b, xs[dirt.value], y + 1.0);
    }
  }

  /** The x coordinates a seed tries when it plants: its centre, then its left and right edges. */
  function Candidates(b: B.Body): seq<real> {
    [B.MidX(b), B.MinX(b), B.MaxX(b)]
  }

  /** The seed after it starts planting: the clock restarts and the target column is chosen. */
  function Plant(s: SeedState, v: View): (r: SeedState)
    ensures r.planting && r.body.animCount == 0.0
    ensures r.body == s.body.(animCount := 0.0)
    ensures r == s.(planting := true, body := r.body, plantX := PlantTarget(s.kind, Candidates(s.body), v.objects, v.base, B.MaxY(s.body), s.plantX))
  {
    var xs := Candidates(s.body);
    var target := PlantTarget(s.kind, xs, v.objects, v.base, B.MaxY(s.body), s.plantX);
    s.(planting := true, body := s.body.(animCount := 0.0), plantX := target)
  }

  /** Linear interpolation from `a` towards `b` by the fraction `t`. */
  function Lerp(a: real, b: real, t: real): real {
    a + (b - a) * t
  }

  /**
    Interpolating by a fraction between 0 and 1 never moves away from the
    target, and the fraction 1 reaches it.
  */
  lemma LerpApproaches(a: real, b: real, t: real)
    ensures 0.0 <= t <= 1.0 ==> B.Abs(b - Lerp(a, b, t)) <= B.Abs(b - a)
    ensures t == 1.0 ==> Lerp(a, b, t) == b
  {
    if 0.0 <= t <= 1.0 {
      var d := b - a;
      assert b - Lerp(a, b, t) == d * (1.0 - t);
      if d >= 0.0 {
        assert d * t >= 0.0 && d * (1.0 - t) >= 0.0;
      } else {
        assert d * t <= 0.0 && d * (1.0 - t) <= 0.0;
      }
    }
  }

  /** The body's horizontal speed and facing after the left and right keys of one tick. */
  function Steer(b: B.Body, runSpeed: real, k: Keys, dt: real): (r: B.Body)
    ensures k.left && !k.right ==> r == b.(dx := -runSpeed, facing := FacingLeft)
    ensures k.right && !k.left ==> r == b.(dx := runSpeed, facing := FacingRight)
    ensures k.left == k.right ==> r == B.DampX(b, dt)
  {
    if k.left && !k.right then b.(dx := -runSpeed, facing := FacingLeft)
    else if k.right && !k.left then b.(dx := runSpeed, facing := FacingRight)
    else B.DampX(b, dt)
  }

  /** The jump or the start of planting a free seed makes on the keys of this frame; a jump wins. */
  function Act(s: SeedState, v: View, k: Keys): (r: SeedState)
    ensures Standing(s.body, v.physics) && k.jumpPressed ==> r == s.(body := s.body.(dy := -s.jumpSpeed))
    ensures !(Standing(s.body, v.physics) && k.jumpPressed) && CanPlant(s.body, v.base) && k.plantPressed ==> r == Plant(s, v)
    ensures !(Standing(s.body, v.physics) && k.jumpPressed) && !(CanPlant(s.body, v.base) && k.plantPressed) ==> r == s
  {
    if Standing(s.body, v.physics) && k.jumpPressed then s.(body := s.body.(dy := -s.jumpSpeed))
    else if CanPlant(s.body, v.base) && k.plantPressed then Plant(s, v)
    else s
  }

  /**
    The rest of a free seed's tick: steer or damp, fall, then move against the
    walls. Only the position, the speed and the facing change; each speed
    component is the steered one or is stopped by a wall.
  */
  function Run(b: B.Body, runSpeed: real, physics: Grid<PhysicTile>, k: Keys, dt: real): (r: B.Body)
    ensures var steered := Steer(b, runSpeed, k, dt);
            && r == b.(x := r.x, y := r.y, dx := r.dx, dy := r.dy, facing := steered.facing)
            && (r.dx == steered.dx || r.dx == 0.0)
  {
    var fallen := B.ApplyGravity(Steer(b, runSpeed, k, dt), dt);
    B.MoveKeepsOrStopsSpeed(fallen, physics, PhysicTile.Wall, dt);
    B.Move(fallen, physics, PhysicTile.Wall, dt)
  }

  /**
    A planting seed's tick: it slides towards its target and, once the clock
    passes the planting animation's length, is planted; the day ends when
    that first happens to a player's seed.
  */
  function Settle(s: SeedState, ease: real, plantDuration: real): (r: (SeedState, Option<real>))
    ensures r.0 == s.(body := r.0.body, planted := r.0.planted)
    ensures r.0.body == s.body.(x := r.0.body.x)
    ensures 0.0 <= ease <= 1.0 ==> B.Abs(s.plantX - B.MidX(r.0.body)) <= B.Abs(s.plantX - B.MidX(s.body))
    ensures r.0.planted <==> s.planted || s.body.animCount > plantDuration
    ensures r.1.Some? <==> !s.planted && s.controlledByPlayer && s.body.animCount > plantDuration
    ensures r.1.Some? ==> r.1.value == (if s.kind == Bomb then 0.5 else 0.0)
  {
    LerpApproaches(B.MidX(s.body), s.plantX, ease);
    var b := B.WithMidX(s.body, Lerp(B.MidX(s.body), s.plantX, ease));
    if b.animCount > plantDuration then
      var endDay := if !s.planted && s.controlledByPlayer then Some(if s.kind == Bomb then 0.5 else 0.0) else None;
      (s.(body := b, planted := true), endDay)
    else
      (s.(body := b), None)
  }

  /**
    One tick of a seed, with the keys of this frame, the time step `dt`, the
    easing fraction `ease` by which a planting seed slides to its target, and
    the length of the planting animation. The second component is the delay
    with which the day ends, when this tick ends it.
  */
  function Update(s: SeedState, v: View, keys: Keys, dt: real, ease: real, plantDuration: real): (SeedState, Option<real>) {
    var s0 := s.(body := s.body.(animCount := s.body.animCount + dt));
    var k := if s.controlledByPlayer then keys else NoKeys;
    if s.planting then Settle(s0, ease, plantDuration)
    else (Free(s0, v, k, dt), None)
  }

  /**
    The tick of a seed that is not planting, after its clock advanced: it
    jumps or starts planting, then runs. It starts planting exactly when it
    can plant and the plant key was pressed without a jump; that restarts its
    clock and picks its target, and nothing else of the seed but its body
    changes.
  */
  function Free(s: SeedState, v: View, k: Keys, dt: real): (r: SeedState)
    ensures r == s.(body := r.body, planting := r.planting, plantX := r.plantX)
    ensures r.body.w == s.body.w && r.body.h == s.body.h && r.body.gravity == s.body.gravity
    ensures var plants := !(Standing(s.body, v.physics) && k.jumpPressed) && CanPlant(s.body, v.base) && k.plantPressed;
            && (plants ==> r.planting && r.body.animCount == 0.0)
            && (!plants ==> r.planting == s.planting && r.body.animCount == s.body.animCount && r.plantX == s.plantX)
  {
    var s1 := Act(s, v, k);
    s1.(body := Run(s1.body, s1.runSpeed, v.physics, k, dt))
  }

  /**
    A tick keeps the seed's kind, speeds, control flag and size. A planting
    seed stays planting, a seed only gets planted while planting, and the day
    ends only on the tick that first plants a planting seed. The clock
    advances by `dt`, or restarts when planting starts.
  */
  lemma UpdateKeeps(s: SeedState, v: View, keys: Keys, dt: real, ease: real, plantDuration: real)
    ensures var (r, endDay) := Update(s, v, keys, dt, ease, plantDuration);
            && r.kind == s.kind && r.runSpeed == s.runSpeed && r.jumpSpeed == s.jumpSpeed
            && r.controlledByPlayer == s.controlledByPlayer && r.done == s.done
            && r.body.w == s.body.w && r.body.h == s.body.h && r.body.gravity == s.body.gravity
            && (s.planting ==> r.planting)
            && (r.planted ==> s.planted || s.planting)
            && (endDay.Some? ==> s.planting && !s.planted && r.planted)
            && (r.body.animCount == s.body.animCount + dt || (!s.planting && r.planting && r.body.animCount == 0.0))
  {
  }

  /**
    While planting, a tick ignores the keys, gravity and collisions: only the
    clock advances and the seed slides horizontally; it stays planting.
  */
  lemma PlantingFreezesPhysics(s: SeedState, v: View, keys: Keys, dt: real, ease: real, plantDuration: real)
    requires s.planting
    ensures var r := Update(s, v, keys, dt, ease, plantDuration).0;
            && r.planting && r.kind == s.kind && r.plantX == s.plantX
            && r.body == s.body.(x := r.body.x, animCount := s.body.animCount + dt)
    ensures Update(s, v, keys, dt, ease, plantDuration) == Update(s, v, NoKeys, dt, ease, plantDuration)
  {
  }

  /**
    The day ends on exactly the tick that first completes the planting
    animation of a player's seed, after half a second for a bomb and at once
    otherwise.
  */
  lemma EndDayOnFirstPlantedTick(s: SeedState, v: View, keys: Keys, dt: real, ease: real, plantDuration: real)
    ensures var (r, endDay) := Update(s, v, keys, dt, ease, plantDuration);
            && (endDay.Some? <==> s.planting && !s.planted && s.controlledByPlayer && s.body.animCount + dt > plantDuration)
            && (endDay.Some? ==> endDay.value == (if s.kind == Bomb then 0.5 else 0.0) && r.planted)
  {
  }

  /** Once planted, a seed stays planted and never ends the day again. */
  lemma PlantedIsFinal(s: SeedState, v: View, keys: Keys, dt: real, ease: real, plantDuration: real)
    requires s.planted && s.planting
    ensures var (r, endDay) := Update(s, v, keys, dt, ease, plantDuration);
            r.planted && r.planting && endDay == None
  {
  }

  /** A seed nobody controls reacts to no key and never ends the day. */
  lemma UncontrolledIgnoresKeys(s: SeedState, v: View, keys: Keys, dt: real, ease: real, plantDuration: real)
    requires !s.controlledByPlayer
    ensures Update(s, v, keys, dt, ease, plantDuration) == Update(s, v, NoKeys, dt, ease, plantDuration)
    ensures Update(s, v, keys, dt, ease, plantDuration).1 == None
  {
  }

  /** A tick of a seed that is not planting is Free after the clock advances, and does not end the day. */
  lemma FreeTick(s: SeedState, v: View, keys: Keys, dt: real, ease: real, plantDuration: real)
    requires !s.planting
    ensures Update(s, v, keys, dt, ease, plantDuration)
              == (Free(s.(body := s.body.(animCount := s.body.animCount + dt)), v, if s.controlledByPlayer then keys else NoKeys, dt), None)
  {
  }

  /** Jumping takes precedence over planting: a standing seed whose jump key was pressed does not start planting. */
  lemma JumpBeatsPlant(s: SeedState, v: View, keys: Keys, dt: real, ease: real, plantDuration: real)
    requires !s.planting && s.controlledByPlayer && keys.jumpPressed
    requires Standing(s.body.(animCount := s.body.animCount + dt), v.physics)
    ensures var r := Update(s, v, keys, dt, ease, plantDuration).0;
            !r.planting && r.plantX == s.plantX
  {
    FreeTick(s, v, keys, dt, ease, plantDuration);
  }

  /**
    A seed that can plant and whose plant key was pressed, without a jump,
    starts planting this tick: its clock restarts and it keeps it through the
    rest of the tick.
  */
  lemma PlantStartsPlanting(s: SeedState, v: View, keys: Keys, dt: real, ease: real, plantDuration: real)
    requires !s.planting && s.controlledByPlayer && keys.plantPressed
    requires !(Standing(s.body.(animCount := s.body.animCount + dt), v.physics) && keys.jumpPressed)
    requires CanPlant(s.body.(animCount := s.body.animCount + dt), v.base)
    ensures var r := Update(s, v, keys, dt, ease, plantDuration).0;
            r.planting && r.planted == s.planted && r.body.animCount == 0.0
  {
  }

  /**
    Holding left alone turns a free seed to the left and, unless a wall stops
    it, moves it left at its running speed; holding right alone does the same
    to the right.
  */
  lemma SteeringSetsFacing(s: SeedState, v: View, keys: Keys, dt: real, ease: real, plantDuration: real)
    requires !s.planting && s.controlledByPlayer && keys.left != keys.right
    ensures var r := Update(s, v, keys, dt, ease, plantDuration).0;
            && r.body.facing == (if keys.left then FacingLeft else FacingRight)
            && (r.body.dx == 0.0 || r.body.dx == (if keys.left then -s.runSpeed else s.runSpeed))
  {
  }

  /** The index of the first true entry is the only one with no true entry before it. */
  lemma {:induction false} FirstHitUnique(hits: seq<bool>, i: nat)
    requires i < |hits| && hits[i] && forall k :: 0 <= k < i ==> !hits[k]
    ensures FirstHit(hits) == Some(i)
  {
    if i > 0 {
      FirstHitUnique(hits[1..], i - 1);
    }
  }

  /** The index of the last true entry is the only one with no true entry after it. */
  lemma {:induction false} LastHitUnique(hits: seq<bool>, i: nat)
    requires i < |hits| && hits[i] && forall k :: i < k < |hits| ==> !hits[k]
    ensures LastHit(hits) == Some(i)
  {
    if i < |hits| - 1 {
      LastHitUnique(hits[..|hits| - 1], i);
    }
  }

  /** How far up a vine grows, in tiles above the seed's own cell. */
  const VINE_HEIGHT: int := 30

  /** Whether `q` is one of the nine cells of the 3 x 3 block centred on `c`. */
  predicate Near(c: Index, q: Index) {
    c.x - 1 <= q.x <= c.x + 1 && c.y - 1 <= q.y <= c.y + 1
  }

  /** Whether `q` is one of the cells of the vine column rising from `c`, `c` included. */
  predicate OnVine(c: Index, q: Index) {
    q.x == c.x && c.y - VINE_HEIGHT <= q.y <= c.y
  }

  /** The vine piece at cell `q` of the column rising from `c`: its top cell, or its stem. */
  function VinePiece(c: Index, q: Index): ObjectTile {
    if q.y == c.y - VINE_HEIGHT then ObjectTile.VineTop else ObjectTile.Vine
  }

  /** The base tile at `q` after a seed of kind `kind` grows in cell `c`. */
  function GrownBase(kind: SeedType, b: Grid<BaseTile>, c: Index, q: Index): (r: BaseTile)
    ensures !Near(c, q) && !OnVine(c, q) ==> r == b(q)
    ensures kind == Sprout || kind == Flower ==> r == b(q)
    ensures kind == SeedType.Dirt ==> (r == BaseTile.Dirt || r == b(q)) && (q == c ==> r == BaseTile.Dirt)
    ensures (kind == Bomb && Near(c, q)) || (kind == SeedType.Vine && OnVine(c, q)) ==> r != BaseTile.Dirt
    ensures r != b(q) ==> r == BaseTile.Dirt || (b(q) == BaseTile.Dirt && r == Cave)
  {
    match kind
    case Sprout | Flower => b(q)
    case Dirt => if q == c then BaseTile.Dirt else b(q)
    case Bomb => if Near(c, q) then Exploded(b(q)) else b(q)
    case Vine => if OnVine(c, q) then Exploded(b(q)) else b(q)
  }

  /**
    The object at `q` once a seed of kind `kind` has grown in cell `c` and
    before any repair: `physics` is the grid the sprout checks for room above,
    `onGlow` whether a flower seed touches a glowing spot.
  */
  function Sown(kind: SeedType, physics: Grid<PhysicTile>, o: Grid<ObjectTile>, c: Index, onGlow: bool, q: Index): (r: ObjectTile)
    ensures !Near(c, q) && !OnVine(c, q) ==> r == o(q)
    ensures kind == SeedType.Dirt ==> r == o(q)
    ensures kind == Bomb && Near(c, q) ==> r == ObjectTile.Empty
    ensures kind == SeedType.Vine && OnVine(c, q) ==> r == ObjectTile.Vine || r == ObjectTile.VineTop
    ensures kind == Sprout && q == c ==> r == ObjectTile.PlantBase || r == ObjectTile.DeadPlant
    ensures kind == Flower ==> r == o(q) || (q == c && !onGlow && r == ObjectTile.DeadPlant)
  {
    match kind
    case Sprout =>
      if physics(Above(c)) == PhysicTile.Wall then (if q == c then ObjectTile.DeadPlant else o(q))
      else if q == c then ObjectTile.PlantBase
      else if q == Above(c) then ObjectTile.PlantTop
      else o(q)
    case Dirt => o(q)
    case Bomb => if Near(c, q) then ObjectTile.Empty else o(q)
    case Flower => if !onGlow && q == c then ObjectTile.DeadPlant else o(q)
    case Vine => if OnVine(c, q) then VinePiece(c, q) else o(q)
  }

  /**
    The object at `q` after a seed of kind `kind` grows in cell `c`: a bomb
    and a vine end with one repair pass over the box `swept`.
  */
  function GrownObjects(kind: SeedType, physics: Grid<PhysicTile>, b: Grid<BaseTile>, o: Grid<ObjectTile>,
                        c: Index, onGlow: bool, swept: Box, q: Index): (r: ObjectTile)
    ensures r == Sown(kind, physics, o, c, onGlow, q) || r == ObjectTile.Empty
    ensures !InBox(swept, q) ==> r == Sown(kind, physics, o, c, onGlow, q)
    ensures kind != Bomb && kind != SeedType.Vine ==> r == Sown(kind, physics, o, c, onGlow, q)
  {
    if kind == Bomb || kind == SeedType.Vine then
      Repaired(GrownBaseGrid(kind, b, c), SownGrid(kind, physics, o, c, false), swept, q)
    else
      Sown(kind, physics, o, c, onGlow, q)
  }

  /** GrownBase as a grid. */
  function GrownBaseGrid(kind: SeedType, b: Grid<BaseTile>, c: Index): Grid<BaseTile> {
    k => GrownBase(kind, b, c, k)
  }

  /** Sown as a grid. */
  function SownGrid(kind: SeedType, physics: Grid<PhysicTile>, o: Grid<ObjectTile>, c: Index, onGlow: bool): Grid<ObjectTile> {
    k => Sown(kind, physics, o, c, onGlow, k)
  }

  /**
    A sprout grown with room above it on dirt is a supported plant: its base
    stands on dirt under its top, and its top stands on its base.
  */
  lemma SproutOnDirtIsSupported(b: Grid<BaseTile>, o: Grid<ObjectTile>, c: Index)
    requires b(Above(c)) != BaseTile.Dirt && b(Below(c)) == BaseTile.Dirt
    ensures var physics := (k: Index) => Classify(b(k), o(k));
            var sown := (k: Index) => Sown(Sprout, physics, o, c, false, k);
            && sown(c) == ObjectTile.PlantBase && sown(Above(c)) == ObjectTile.PlantTop
            && ValidAt(b, sown, c) && ValidAt(b, sown, Above(c))
  {
    assert Below(Above(c)) == c;
  }

  /** A sprout without room above it leaves a dead plant in its own cell and changes nothing else. */
  lemma BlockedSproutDies(b: Grid<BaseTile>, o: Grid<ObjectTile>, c: Index, q: Index)
    requires b(Above(c)) == BaseTile.Dirt
    ensures var physics := (k: Index) => Classify(b(k), o(k));
            Sown(Sprout, physics, o, c, false, q) == if q == c then ObjectTile.DeadPlant else o(q)
  {
  }

  /** After a bomb, none of the nine cells around it is a wall, and none of them holds an object. */
  lemma BlastClearsBlock(physics: Grid<PhysicTile>, b: Grid<BaseTile>, o: Grid<ObjectTile>, c: Index, swept: Box, q: Index)
    requires Near(c, q)
    ensures forall t :: Classify(GrownBase(Bomb, b, c, q), t) != PhysicTile.Wall
    ensures GrownObjects(Bomb, physics, b, o, c, false, swept, q) == ObjectTile.Empty
  {
    UnsupportedKindsSurvive(GrownBaseGrid(Bomb, b, c), SownGrid(Bomb, physics, o, c, false), swept, q);
  }

  /** After a vine grows, every cell of its column has no dirt and holds a piece of the vine. */
  lemma VineStands(physics: Grid<PhysicTile>, b: Grid<BaseTile>, o: Grid<ObjectTile>, c: Index, swept: Box, q: Index)
    requires OnVine(c, q)
    ensures GrownBase(SeedType.Vine, b, c, q) != BaseTile.Dirt
    ensures GrownObjects(SeedType.Vine, physics, b, o, c, false, swept, q) == VinePiece(c, q)
    ensures VinePiece(c, q) == ObjectTile.Vine || VinePiece(c, q) == ObjectTile.VineTop
  {
    UnsupportedKindsSurvive(GrownBaseGrid(SeedType.Vine, b, c), SownGrid(SeedType.Vine, physics, o, c, false), swept, q);
  }

  /** A flower seed on a glowing spot changes no tile; elsewhere it dies in its own cell. */
  lemma FlowerNeedsGlow(physics: Grid<PhysicTile>, o: Grid<ObjectTile>, c: Index, onGlow: bool, q: Index)
    ensures onGlow ==> Sown(Flower, physics, o, c, onGlow, q) == o(q)
    ensures !onGlow ==> Sown(Flower, physics, o, c, onGlow, c) == ObjectTile.DeadPlant
  {
  }
}
