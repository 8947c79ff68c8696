/**
  The fixed-point unit system: one pixel is PHYSICS_SCALE physics units and a
  tile is TILE_SIZE_PX pixels.
*/
module Constants {

  const PHYSICS_SCALE: int := 16
  const FPS: int := 60
  const TILE_SIZE_PX: int := 16
  const TILE_SIZE: int := TILE_SIZE_PX * PHYSICS_SCALE

  lemma TileSizeIs256()
    ensures TILE_SIZE == 256
  {
  }

  /** Pixels to physics units. */
  function PhysFromPx(x: int): (r: int)
    ensures r / PHYSICS_SCALE == x && r % PHYSICS_SCALE == 0
  {
    x * PHYSICS_SCALE
  }

  /** Physics units to whole pixels, rounding down (Math.floor). */
  function PxFromPhys(x: int): (r: int)
    ensures PhysFromPx(r) <= x < PhysFromPx(r) + PHYSICS_SCALE
  {
    x / PHYSICS_SCALE
  }

  /** Converting whole pixels to physics units and back loses nothing. */
  lemma {:induction false} PxPhysRoundTrip(n: int)
    ensures PxFromPhys(PhysFromPx(n)) == n
  {
  }

  /** Converting physics units to pixels and back rounds down to a multiple of the scale. */
  lemma PhysPxRoundDown(x: int)
    ensures PhysFromPx(PxFromPhys(x)) <= x < PhysFromPx(PxFromPhys(x)) + PHYSICS_SCALE
    ensures PhysFromPx(PxFromPhys(x)) % PHYSICS_SCALE == 0
  {
  }
}
