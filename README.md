# Seed platformer: tiles, entities and seeds in Dafny

This project models the core of a small 2D platformer in which the player is a
seed. The seed runs and jumps over a tile map. When it plants itself, it grows
into something that changes the map: a sprout to stand on, a block of dirt, a
bomb that blows a hole in the ground, a flower, or a vine. Each night the
plants on the map age.

The model covers two generations of the code:

- **The current game.**
  - A two-layer tile map: a base layer of empty, dirt, cave and unknown cells, and an object layer of plants, glowing spots and vines.
  - The physics view of the map: dirt is a wall, a plant top is a one-way platform.
  - The repair pass that clears unsupported objects.
  - The night that ages plants.
  - The seed entity: input, planting and growth.
- **The earlier game.**
  - A single-layer grid of empty cells and walls, decoded from the pixels of a level image.
  - The earlier object layer, without vines.
  - The earlier seed, which only runs and jumps.
  - The level that loads an image and runs its entities.

Both generations share the entity physics: gravity, damping, moving against
walls and ground contact.

World coordinates are in fixed-point physics units. One pixel is 16 units and
one tile is 256 units. The model writes them as `real`; tile indices are `int`.

Each operation that changes state in place is an imperative method on a class
(`TileLayer`, `Tiles`, `Entity`, the two `Seed` classes, `Level`). Each such
method is proved against a pure function on values (`Bodies.Move`,
`Seeds.Update`, `TileGrid.Repaired`, `GameLevel.DecodedTile`, ...). The
properties the game relies on are proved as lemmas about those functions.

Modules:

| file | module | models |
|---|---|---|
| common.dfy | Common | points, grid indices, directions, corners of a box |
| constants.dfy | Constants | physics scale, frame rate, tile size, pixel/physics conversion |
| layers.dfy | Layers | world-to-tile conversion, tile anchors, a generic tile layer with an extent |
| base_layer.dfy | BaseLayer | the base layer: the initial floor and walls, filling unknown cells, explosions |
| object_layer.dfy | ObjectLayer | the object layer and its nightly ageing |
| tiles.dfy | TileGrid | the two-layer map, its physics view and the repair pass |
| bodies.dfy | Bodies | the entity as a value: setters, gravity, damping, collisions, moves, contact |
| entities.dfy | Entities | the entity as an object whose methods update its fields |
| seeds.dfy | Seeds | seed kinds, animation choice, one tick of the seed, and what each kind grows |
| seed_entity.dfy | SeedEntity | the seed as an object, proved against Seeds |
| legacy_object_layer.dfy | LegacyObjectLayer | the earlier five-value object layer |
| legacy_tiles.dfy | LegacyTiles | the earlier single-layer grid |
| legacy_seed.dfy | LegacySeed | the earlier seed |
| level.dfy | GameLevel | decoding a level image, the start tile, the player seed, the update loop |

The earlier base layer, `src/ts/game/base-layer.ts`, is the same code as
`src/ts/game/tile/base-layer.ts` in lines 3-70: only the import paths in lines 1-2
and the rendering code after line 70 differ. The rows for `BaseLayer` below cite
the current file, and the same line numbers hold in the earlier one.

## Model

| member | source | states |
|---|---|---|
| Common.CornersInDirection | src/ts/entity/entity.ts:122-132 | With no direction all four corners of the box are sampled; with a direction, exactly the two corners on that side. |
| Constants.TileSizeIs256 | src/ts/constants.ts:15-16 | A tile is 16 pixels of 16 physics units each, so 256 units. |
| Constants.PhysFromPx | src/ts/constants.ts:25-27 | Pixels become physics units by scaling by 16. The result is a multiple of 16 whose quotient is the pixel count. |
| Constants.PxFromPhys | src/ts/constants.ts:29-31 | Physics units become pixels by rounding down: x lies in the 16-unit span of the pixel returned. |
| Constants.PxPhysRoundTrip | src/ts/constants.ts:25-31 | Converting pixels to physics units and back gives the same pixel count. |
| Constants.PhysPxRoundDown | src/ts/constants.ts:25-31 | Converting physics units to pixels and back rounds down to the nearest multiple of 16, never more than 15 units below. |
| Layers.TileOf | src/ts/game/tile/tiles.ts:137-142 | The tile index of a world coordinate is the k whose tile span [256k, 256(k+1)) holds it. |
| Layers.TileOfUnique | src/ts/game/tile/tiles.ts:137-142 | That index is unique: any k whose span holds c is the index of c. |
| Layers.TileOfShift | src/ts/game/entity/seed.ts:316-324 | Moving a point by n whole tiles moves its tile index by exactly n. The explosion and vine offsets rely on this. |
| Layers.TileCoord | src/ts/game/tile/tiles.ts:108-113 | The anchored point of a tile lies inside that tile for anchors between 0 and 1; anchor (0, 0) is the tile's top-left corner. |
| Layers.TileCoordFromCoord | src/ts/game/tile/tiles.ts:115-117 | Anchoring within the tile of a point gives a point in the same tile. |
| BaseLayer.NewBaseLayer | src/ts/game/tile/base-layer.ts:14-25 | A new w x h base layer covers exactly the w x h box. It has dirt on its last row and first and last columns, and is empty elsewhere. |
| BaseLayer.Resolve | src/ts/game/tile/base-layer.ts:32-42 | An unknown cell becomes the non-dirt neighbour with the lower enum value, or empty when both neighbours are dirt. It never becomes dirt. |
| BaseLayer.Swept | src/ts/game/tile/base-layer.ts:27-47 | The sweep keeps every known cell. It turns a cell into dirt exactly when the cell was dirt. |
| BaseLayer.FillInUnknownTiles | src/ts/game/tile/base-layer.ts:27-47 | The row-by-row sweep over the extent leaves every cell as Swept says, with the left neighbour read after it was resolved. The extent is unchanged. |
| BaseLayer.UnknownAfterDirtStaysUnknown | src/ts/game/tile/base-layer.ts:30-43 | An unknown cell between dirt and another unknown cell is written back as unknown: one sweep does not resolve every unknown cell. |
| BaseLayer.SweepReadsResolvedLeft | src/ts/game/tile/base-layer.ts:28-43 | In the row cave, unknown, unknown, dirt the second unknown becomes cave only because the first was resolved earlier in the same sweep. |
| BaseLayer.Exploded | src/ts/game/tile/base-layer.ts:49-54 | An explosion turns dirt into cave and leaves every other tile as it was. No dirt remains. |
| BaseLayer.ExplodeCellIdempotent | src/ts/game/tile/base-layer.ts:49-54 | Exploding the same cell twice has the same effect as exploding it once. |
| BaseLayer.ExplodeCell | src/ts/game/tile/base-layer.ts:49-54 | After an explosion at a cell, that cell holds no dirt: dirt became cave and any other tile stayed. Every other cell is unchanged. |
| BaseLayer.ExplodeAtCoord | src/ts/game/tile/base-layer.ts:49-54 | Only the cell under the point changes, by Exploded. The extent grows only when dirt was there. |
| ObjectLayer.NextDayTile | src/ts/game/tile/object-layer.ts:25-41 | After a night only empty cells, glowing spots and dead plants remain. A dead plant appears exactly where a plant base was; a glow stays exactly where a glow was. |
| ObjectLayer.TwoNightsSettle | src/ts/game/tile/object-layer.ts:25-41 | After two nights every tile is empty or glowing. |
| ObjectLayer.SettledTileIsFixed | src/ts/game/tile/object-layer.ts:25-41 | Empty cells and glowing spots never change overnight. |
| ObjectLayer.AdvanceDay | src/ts/game/tile/object-layer.ts:45-51 | Every cell of the extent moves on one day; cells outside it and the extent are untouched. |
| ObjectLayer.NextDay | src/ts/game/tile/object-layer.ts:45-51 | A night leaves cells outside the layer's extent alone. Inside it, only empty cells, glows and dead plants remain; a dead plant appears exactly where a plant base was and a glow exactly where a glow was. |
| ObjectLayer.TwoDaysClearExtent | src/ts/game/tile/object-layer.ts:45-51 | Two nights leave every cell of the extent empty or glowing. |
| ObjectLayer.SettledLayerIsFixed | src/ts/game/tile/object-layer.ts:45-51 | A night changes nothing in a layer that holds only empty cells and glowing spots. |
| TileGrid.Classify | src/ts/game/tile/tiles.ts:123-135 | A cell is a wall exactly when its base is dirt. It is a one-way platform exactly when it is not dirt and holds a plant top. Otherwise it is empty. |
| TileGrid.SweepBox | src/ts/game/tile/tiles.ts:48-53 | The repair pass's box contains every cell of both layers' extents. |
| TileGrid.Repaired | src/ts/game/tile/tiles.ts:48-97 | The pass only ever clears a cell to empty, and it changes no cell outside its box. |
| TileGrid.RepairedClearsUnsupported | src/ts/game/tile/tiles.ts:55-97 | A cell in the box keeps its object exactly when the object is empty or supported, where the supporting row above is read as already repaired. |
| TileGrid.UnsupportedKindsSurvive | src/ts/game/tile/tiles.ts:70-97 | Empty cells, vines and vine tops need no support and are never cleared. |
| TileGrid.ObjectWithoutDirtCleared | src/ts/game/tile/tiles.ts:73-81 | A glow, plant base or dead plant with no dirt below it is cleared. |
| TileGrid.PlantOnDirtSurvives | src/ts/game/tile/tiles.ts:83-94 | A plant base on dirt under a plant top survives the pass, and so does that plant top. |
| TileGrid.OrphanTopSurvivesOnePass | src/ts/game/tile/tiles.ts:55-62 | The pass is a single sweep, not a fixed point. A plant top whose base the pass clears survives, because its row came first; a second pass clears it. |
| TileGrid.RepairedCongruent | src/ts/game/tile/tiles.ts:48-97 | The result of the pass depends only on the contents of the two layers. |
| TileGrid.ValidLayersAreFixed | src/ts/game/tile/tiles.ts:48-97 | On layers where every cell is supported the pass changes nothing. |
| TileGrid.Tiles.constructor | src/ts/game/tile/tiles.ts:28-31 | A new map is a new base layer with floor and walls and an empty object layer, both covering w x h. |
| TileGrid.Tiles.GetTile | src/ts/game/tile/tiles.ts:123-135 | A cell is a wall exactly when its base tile is dirt. It is a one-way platform exactly when it is not dirt and its object is a plant top. |
| TileGrid.Tiles.GetTileAtCoord | src/ts/game/tile/tiles.ts:137-142 | The tile at a world point is the tile of the one cell whose span of 256 units holds the point in both directions. |
| TileGrid.Tiles.HasDirtUnderneath | src/ts/game/tile/tiles.ts:99-102 | True exactly when the cell below is a wall, whatever object it holds, i.e. when it is dirt. |
| TileGrid.Tiles.IsValidTile | src/ts/game/tile/tiles.ts:70-97 | The object at a cell is valid exactly when it is supported (the relation the repair pass uses). Empty cells and vines are always valid; a glow is valid exactly when dirt is underneath. |
| TileGrid.Tiles.ExplodeAtCoord | src/ts/game/tile/tiles.ts:43-46 | The object under the point is cleared and its base cell is exploded. Every other cell is unchanged. The physics tile at the point is empty afterwards. |
| TileGrid.Tiles.FixInvalidTiles | src/ts/game/tile/tiles.ts:48-63 | The objects become Repaired over the box spanning both extents. The base is unchanged and the object extent only grows. |
| TileGrid.Tiles.AdvanceDay | src/ts/game/tile/tiles.ts:104-106 | Only the object layer ages by a night; the extent is kept. |
| Bodies.NewBody | src/ts/entity/entity.ts:9-20 | A new entity has zero size and speed and collides. Its gravity is 0.13 x 16 x 60 x 60 = 7488 and its damping 1/8 x 16 x 60 x 60 = 7200. |
| Bodies.WithMinX | src/ts/entity/entity.ts:169-171 | Setting the left edge moves the body horizontally so that it starts at v and keeps its width. Nothing else changes. |
| Bodies.WithMaxX | src/ts/entity/entity.ts:175-177 | Setting the right edge moves the body so that it ends at v. Nothing else changes. |
| Bodies.WithMidX | src/ts/entity/entity.ts:181-183 | Setting the horizontal centre moves the body so that it is centred on v. Nothing else changes. |
| Bodies.WithMinY | src/ts/entity/entity.ts:172-174 | Setting the top edge moves the body vertically so that it starts at v. Nothing else changes. |
| Bodies.WithMaxY | src/ts/entity/entity.ts:178-180 | Setting the bottom edge moves the body so that it ends at v. Nothing else changes. |
| Bodies.WithMidY | src/ts/entity/entity.ts:184-186 | Setting the vertical centre moves the body so that it is centred on v. Nothing else changes. |
| Bodies.SettersKeepCurrentPosition | src/ts/entity/entity.ts:150-187 | Every setter given its own getter's value leaves the body unchanged, so the getters and setters agree. |
| Bodies.DampedDx | src/ts/entity/entity.ts:42-51 | Damping reduces the speed by the damping amount. Below that amount it stops the entity. It never reverses the direction. |
| Bodies.DampingSlowsDown | src/ts/entity/entity.ts:42-51 | Damping never increases the speed. |
| Bodies.DampX | src/ts/entity/entity.ts:42-51 | Damping changes only the horizontal speed, by DampedDx with amount xDampAmt x dt. |
| Bodies.ApplyGravity | src/ts/entity/entity.ts:38-40 | Gravity changes only the vertical speed, by gravity x dt. |
| Bodies.OnGround | src/ts/entity/entity.ts:134-136 | Being on the ground means a wall one unit under the bottom-left or bottom-right corner. |
| Bodies.TouchingBelowFeet | src/ts/entity/entity.ts:122-136 | Touching a tile downwards one unit under the feet means that tile is in the cell one unit under the bottom-left or bottom-right corner. |
| Bodies.TouchingAnyCorner | src/ts/entity/entity.ts:122-132 | Bodies.TouchingTile with all four corners means touching it on the left or on the right side, and likewise on the top or on the bottom side. |
| Bodies.OnLeftCollision | src/ts/entity/entity.ts:94-99 | The body is pushed right into the next tile column and left flush with its left edge. The horizontal speed stops and nothing else changes. |
| Bodies.OnRightCollision | src/ts/entity/entity.ts:101-106 | The body is pushed left into the previous tile column, its right edge one unit short of the wall column's left edge. The horizontal speed stops. |
| Bodies.OnUpCollision | src/ts/entity/entity.ts:108-113 | The body is pushed down into the next row and left flush with its top edge. The vertical speed stops. |
| Bodies.OnDownCollision | src/ts/entity/entity.ts:115-120 | The body is pushed up into the previous row, its bottom edge one unit above the wall row's top. The vertical speed stops. |
| Bodies.MoveX | src/ts/entity/entity.ts:58-74 | A horizontal move changes only the horizontal position and speed. |
| Bodies.MoveXStopsAtWalls | src/ts/entity/entity.ts:58-74 | The body travels its full distance at unchanged speed, or it is stopped at zero speed in the column next to the wall. It is stopped exactly when it collides and touches a wall on the side it moves towards. |
| Bodies.MoveY | src/ts/entity/entity.ts:76-92 | A vertical move changes only the vertical position and speed. |
| Bodies.MoveYStopsAtWalls | src/ts/entity/entity.ts:76-92 | The same as MoveXStopsAtWalls, vertically, with the up and down sides. |
| Bodies.Move | src/ts/entity/entity.ts:53-56 | A move changes only position and speed. |
| Bodies.MoveKeepsOrStopsSpeed | src/ts/entity/entity.ts:53-92 | After a move each speed component is unchanged or zero. |
| Bodies.NonCollidingMovesFreely | src/ts/entity/entity.ts:58-92 | A body that does not collide travels exactly speed x dt in each direction. |
| Bodies.Step | src/ts/entity/entity.ts:28-35 | An entity's tick keeps its size, collision flag and facing, and advances its clock by dt. |
| Bodies.StepSpeeds | src/ts/entity/entity.ts:28-51 | Over one step the vertical speed gains gravity times dt and the horizontal speed is damped by the damping rate times dt, each unless a wall stops it. Gravity and the damping rate are kept. |
| Bodies.TouchingEntitySymmetric | src/ts/entity/entity.ts:138-140 | A touches B exactly when B touches A. |
| Bodies.TouchingEntityIsSharedInterior | src/ts/entity/entity.ts:138-140 | Bodies.TouchingEntity: two bodies of positive size touch exactly when some point lies strictly inside both. |
| Entities.Entity.constructor | src/ts/entity/entity.ts:9-26 | The fields of a new entity are those of NewBody. |
| Entities.Entity.SetMinX | src/ts/entity/entity.ts:169-171 | The new state is WithMinX of the old one. |
| Entities.Entity.SetMaxX | src/ts/entity/entity.ts:175-177 | The new state is WithMaxX of the old one. |
| Entities.Entity.SetMidX | src/ts/entity/entity.ts:181-183 | The new state is WithMidX of the old one. |
| Entities.Entity.SetMinY | src/ts/entity/entity.ts:172-174 | The new state is WithMinY of the old one. |
| Entities.Entity.SetMaxY | src/ts/entity/entity.ts:178-180 | The new state is WithMaxY of the old one. |
| Entities.Entity.SetMidY | src/ts/entity/entity.ts:184-186 | The new state is WithMidY of the old one. |
| Entities.Entity.Update | src/ts/entity/entity.ts:28-35 | The fields after a tick are Step of the old ones. |
| Entities.Entity.ApplyGravity | src/ts/entity/entity.ts:38-40 | The new state is ApplyGravity of the old one. |
| Entities.Entity.DampX | src/ts/entity/entity.ts:42-51 | The new state is DampX of the old one. |
| Entities.Entity.Move | src/ts/entity/entity.ts:53-56 | The new state is Move of the old one. |
| Entities.Entity.MoveX | src/ts/entity/entity.ts:58-74 | The new state is MoveX of the old one over dx x dt. |
| Entities.Entity.MoveY | src/ts/entity/entity.ts:76-92 | The new state is MoveY of the old one over dy x dt. |
| Entities.Entity.OnLeftCollision | src/ts/entity/entity.ts:94-99 | The new state is OnLeftCollision of the old one. |
| Entities.Entity.OnRightCollision | src/ts/entity/entity.ts:101-106 | The new state is OnRightCollision of the old one. |
| Entities.Entity.OnUpCollision | src/ts/entity/entity.ts:108-113 | The new state is OnUpCollision of the old one. |
| Entities.Entity.OnDownCollision | src/ts/entity/entity.ts:115-120 | The new state is OnDownCollision of the old one. |
| Entities.Entity.IsTouchingTile | src/ts/entity/entity.ts:122-132 | The loop answers true exactly when some sampled corner, shifted by the offset, lies in a cell holding the tile. |
| Entities.Entity.IsOnGround | src/ts/entity/entity.ts:134-136 | The answer is OnGround: a wall one unit under a bottom corner. |
| Entities.Entity.IsTouchingEntity | src/ts/entity/entity.ts:138-140 | The answer is the same seen from either entity. For entities of positive size it is true exactly when some point lies strictly inside both. |
| Seeds.FromOrdinal | src/ts/game/entity/seed.ts:15-21 | Exactly the values 0 to 4 name a seed kind, and each names the kind with that value. |
| Seeds.OrdinalRoundTrip | src/ts/game/entity/seed.ts:15-21 | Every kind is named by its own value. |
| Seeds.NextSeed | src/ts/game/entity/seed.ts:52-57 | The next kind's value is the current one plus one, modulo four, for the four kinds of the picker. A vine gives the value 5, which names no kind. |
| Seeds.NextSeedCycle | src/ts/game/entity/seed.ts:52-57 | Sprout, dirt, bomb and flower form a cycle of four: none of the first three successors repeats the kind, and four steps return to the start. |
| Seeds.VineHasNoNext | src/ts/game/entity/seed.ts:52-57 | The successor of vine is 5, which names no kind. |
| Seeds.JumpBand | src/ts/game/entity/seed.ts:106-122 | The jump frame is one of five bands, from rising fast to falling fast. |
| Seeds.JumpBandMonotone | src/ts/game/entity/seed.ts:106-122 | A faster fall never shows a more upward jump frame. |
| Seeds.BandSuffixInjective | src/ts/game/entity/seed.ts:106-122 | The five bands have five distinct animation names. |
| Seeds.AnimationName | src/ts/game/entity/seed.ts:99-127 | Planting shows the one-shot plant animation. Otherwise, off the ground it shows the jump frame of the band, moving it shows run, and still it shows stand. Only the plant animation does not loop. |
| Seeds.NewSeed | src/ts/game/entity/seed.ts:78-97 | A new seed is a 160 x 192 body with gravity 7488, run speed 1440 and jump speed 2880. It is a sprout, player-controlled, and not planting. |
| Seeds.Standing | src/ts/game/entity/seed.ts:210 | A seed stands exactly when the cell one unit under its bottom-left or bottom-right corner is not empty, i.e. is a wall or a one-way platform. |
| Seeds.CanPlant | src/ts/game/entity/seed.ts:233-235 | A seed can plant exactly when the cell one unit under its bottom-left or bottom-right corner is dirt. |
| Seeds.PlantCentre | src/ts/game/entity/seed.ts:364-371 | The planting target is the centre of the tile column holding the chosen x. |
| Seeds.FirstHit | src/ts/game/entity/seed.ts:360-367 | The first candidate with a glowing spot, or none when no candidate has one. |
| Seeds.LastHit | src/ts/game/entity/seed.ts:369-373 | The last candidate with dirt below, or none when no candidate has it. |
| Seeds.PlantTarget | src/ts/game/entity/seed.ts:354-374 | The target is the old one or the centre of the column of one of the candidate x coordinates, in the same tile column as that coordinate. |
| Seeds.PlantTargetChoice | src/ts/game/entity/seed.ts:354-374 | A flower settles on the first candidate over a glow. Otherwise the last candidate over dirt wins. With neither, the old target stays. |
| Seeds.Plant | src/ts/game/entity/seed.ts:354-374 | Planting sets the planting flag, restarts the clock and chooses the target. Nothing else changes. |
| Seeds.Steer | src/ts/game/entity/seed.ts:216-226 | Left alone runs left and faces left; right alone runs right and faces right. Neither key or both keys damp. |
| Seeds.Act | src/ts/game/entity/seed.ts:210-214 | A standing seed with the jump key pressed jumps. Otherwise a seed that can plant with the plant key pressed plants. Otherwise nothing changes. |
| Seeds.Run | src/ts/game/entity/seed.ts:216-230 | The rest of a free tick changes only position, speed and facing. The horizontal speed is the steered one or is stopped by a wall. |
| Seeds.LerpApproaches | src/ts/game/entity/seed.ts:197-198 | Interpolating by a fraction between 0 and 1 never moves away from the target; the fraction 1 reaches it. |
| Seeds.Settle | src/ts/game/entity/seed.ts:196-208 | A planting tick moves the seed only horizontally, never away from its target for an easing fraction in [0, 1]. It is planted once the clock passes the animation length. The day ends, with delay 0.5 for a bomb and 0 otherwise, exactly when a player's seed first gets planted. |
| Seeds.Free | src/ts/game/entity/seed.ts:210-230 | A free tick starts planting exactly when the seed can plant and the plant key was pressed without a jump; that restarts the clock. Otherwise the planting flag, the target and the clock stay. Only the body, the flag and the target change. |
| Seeds.UpdateKeeps | src/ts/game/entity/seed.ts:171-231 | Seeds.Update, one tick of a seed, keeps the kind, speeds, control flag and size. A planting seed stays planting; a seed only gets planted while planting; the day ends only on the tick a planting seed first gets planted. The clock advances by dt, or restarts when planting starts. |
| Seeds.PlantingFreezesPhysics | src/ts/game/entity/seed.ts:196-208 | While planting, a tick ignores the keys and changes only the clock and the horizontal position. The seed stays planting. |
| Seeds.EndDayOnFirstPlantedTick | src/ts/game/entity/seed.ts:200-206 | The day ends exactly on the tick that first finishes a player's planting animation. The delay is half a second for a bomb and zero otherwise. |
| Seeds.PlantedIsFinal | src/ts/game/entity/seed.ts:200-206 | A planted seed stays planted and never ends the day again. |
| Seeds.UncontrolledIgnoresKeys | src/ts/game/entity/seed.ts:194 | A seed nobody controls reacts to no key and never ends the day. |
| Seeds.JumpBeatsPlant | src/ts/game/entity/seed.ts:210-214 | A standing seed with the jump key pressed does not start planting that tick. |
| Seeds.PlantStartsPlanting | src/ts/game/entity/seed.ts:210-214 | Without a jump, a seed that can plant and has the plant key pressed is planting after the tick. Its clock is restarted. |
| Seeds.SteeringSetsFacing | src/ts/game/entity/seed.ts:216-230 | Holding one side turns the seed to that side. Its speed is the run speed towards that side, unless a wall stops it. |
| Seeds.FirstHitUnique | src/ts/game/entity/seed.ts:360-367 | A true entry with no true entry before it is the first hit. |
| Seeds.LastHitUnique | src/ts/game/entity/seed.ts:369-373 | A true entry with no true entry after it is the last hit. |
| Seeds.GrownBase | src/ts/game/entity/seed.ts:252-352 | Growing changes base tiles only in the 3 x 3 block or the vine column of the seed. A dirt seed puts dirt in its own cell; a bomb's block and a vine's column hold no dirt afterwards; any other change turns dirt into cave. Sprouts and flowers change no base tile. |
| Seeds.Sown | src/ts/game/entity/seed.ts:252-352 | Growing changes objects only in the 3 x 3 block or the vine column of the seed. A dirt seed changes none; a bomb empties its block; a vine fills its column with vine pieces; a sprout leaves a plant base or a dead plant in its cell; a flower changes at most its own cell, to a dead plant, and only off a glow. |
| Seeds.GrownObjects | src/ts/game/entity/seed.ts:252-352 | The final object at a cell is the sown one, or empty when the repair pass after a bomb or a vine clears it. Outside the swept box, and for the other kinds, it is the sown one. |
| Seeds.SproutOnDirtIsSupported | src/ts/game/entity/seed.ts:277-291 | A sprout grown on dirt with room above is a supported plant base under a supported plant top. |
| Seeds.BlockedSproutDies | src/ts/game/entity/seed.ts:279-285 | A sprout under a wall leaves a dead plant in its own cell and changes nothing else. |
| Seeds.BlastClearsBlock | src/ts/game/entity/seed.ts:315-325 | After a bomb, no cell of the 3 x 3 block around it is a wall, and none holds an object. |
| Seeds.VineStands | src/ts/game/entity/seed.ts:337-349 | After a vine grows, every cell of its 31-cell column has no dirt and holds a vine piece, with the top cell holding the vine top. |
| Seeds.FlowerNeedsGlow | src/ts/game/entity/seed.ts:299-313 | A flower on a glowing spot changes no tile. Elsewhere it leaves a dead plant in its own cell. |
| SeedEntity.Seed.constructor | src/ts/game/entity/seed.ts:78-97 | The fields of a new seed are NewSeed. |
| SeedEntity.Seed.Jump | src/ts/game/entity/seed.ts:155-158 | Only the vertical speed changes, to minus the jump speed. |
| SeedEntity.Seed.MoveLeft | src/ts/game/entity/seed.ts:161-164 | Only the speed and facing change, to the run speed to the left. |
| SeedEntity.Seed.MoveRight | src/ts/game/entity/seed.ts:166-169 | Only the speed and facing change, to the run speed to the right. |
| SeedEntity.Seed.IsStanding | src/ts/game/entity/seed.ts:210 | The answer is Standing: a wall or one-way platform one unit under a bottom corner. |
| SeedEntity.Seed.CanPlant | src/ts/game/entity/seed.ts:233-235 | The answer is CanPlant: dirt one unit under a bottom corner. |
| SeedEntity.Seed.FirstGlow | src/ts/game/entity/seed.ts:360-367 | The loop returns FirstHit over the candidates' glow checks. |
| SeedEntity.Seed.LastDirt | src/ts/game/entity/seed.ts:369-373 | The loop returns LastHit over the candidates' dirt checks. |
| SeedEntity.Seed.PlantTarget | src/ts/game/entity/seed.ts:357-373 | The target computed by the two loops is PlantTarget. |
| SeedEntity.Seed.Plant | src/ts/game/entity/seed.ts:354-374 | The new seed state is Seeds.Plant of the old one. |
| SeedEntity.Seed.Settle | src/ts/game/entity/seed.ts:196-208 | The new state and the day-end delay are Seeds.Settle. |
| SeedEntity.Seed.Act | src/ts/game/entity/seed.ts:210-214 | The new state is Seeds.Act. |
| SeedEntity.Seed.Steer | src/ts/game/entity/seed.ts:216-226 | The new body is Seeds.Steer. |
| SeedEntity.Seed.Run | src/ts/game/entity/seed.ts:216-230 | The new body is Seeds.Run on the map's physics view. |
| SeedEntity.Seed.Update | src/ts/game/entity/seed.ts:171-231 | The new state and the day-end delay are Seeds.Update. |
| SeedEntity.Seed.GrowSprout | src/ts/game/entity/seed.ts:277-291 | The objects become Sown for a sprout, and the object extent only grows. |
| SeedEntity.Seed.GrowDirt | src/ts/game/entity/seed.ts:293-297 | The base becomes GrownBase for dirt: dirt in the seed's own cell. That cell is inside the extent afterwards. |
| SeedEntity.Seed.TryGrowFlower | src/ts/game/entity/seed.ts:299-313 | On a glowing spot a flower sprite is spawned at the seed's feet and no tile changes. Elsewhere a dead plant is left and nothing is spawned. |
| SeedEntity.Seed.Explode | src/ts/game/entity/seed.ts:315-335 | The base becomes GrownBase and the objects GrownObjects for a bomb. The repair pass covers both old extents and the whole 3 x 3 block. One explosion sprite is spawned at the centre of the seed's cell. |
| SeedEntity.Seed.BlastColumn | src/ts/game/entity/seed.ts:316-325 | One column of the 3 x 3 block is exploded, cell by cell. The cells of that column join the object extent, and both extents only grow. |
| SeedEntity.Seed.GrowVine | src/ts/game/entity/seed.ts:337-352 | The base becomes GrownBase and the objects GrownObjects for a vine. The repair pass covers both old extents and the whole vine column. |
| SeedEntity.Seed.GrowVinePiece | src/ts/game/entity/seed.ts:340-349 | The cell d above the seed is exploded and holds the vine piece for that height, the top at height 30. It joins the object extent, and both extents only grow. |
| SeedEntity.Seed.Grow | src/ts/game/entity/seed.ts:252-275 | The first call marks the seed done and changes the map as its kind grows. It spawns an explosion for a bomb, a flower for a flower seed on a glowing spot, and nothing otherwise. Later calls change nothing and spawn nothing. |
| LegacyObjectLayer.NextDayTile | src/ts/game/object-layer.ts:14-25 | After a night only empty cells, glowing spots and dead plants remain. A dead plant appears exactly where a plant base was; a glow stays exactly where a glow was. |
| LegacyObjectLayer.TwoNightsSettle | src/ts/game/object-layer.ts:14-25 | After two nights every tile is empty or glowing. |
| LegacyObjectLayer.Upgrade | src/ts/game/object-layer.ts:6-12 | The earlier tiles are the current tiles without the vine pieces. |
| LegacyObjectLayer.NightUnchangedByVines | src/ts/game/object-layer.ts:14-25 | For every earlier tile, the current night does what the earlier night did. |
| LegacyObjectLayer.UpgradeInjective | src/ts/game/object-layer.ts:6-12 | Distinct earlier tiles stay distinct in the current set. |
| LegacyObjectLayer.AdvanceDay | src/ts/game/object-layer.ts:29-35 | Every cell of the extent ages one night; the rest is untouched. |
| LegacyTiles.Tiles.constructor | src/ts/game/tiles.ts:23-34 | A new grid has w columns and h rows, every one of its cells empty. |
| LegacyTiles.Tiles.GetTile | src/ts/game/tiles.ts:86-94 | Beside the grid or below it is wall. Above it, within its columns, is open. Inside it is the stored tile. |
| LegacyTiles.Tiles.SetTile | src/ts/game/tiles.ts:82-84 | Writing a cell of an existing row changes that cell and no other. A column outside the grid changes nothing GetTile reads. |
| LegacyTiles.Tiles.GetTileAtCoord | src/ts/game/tiles.ts:96-101 | The tile at a world point is the tile of the cell holding it. |
| LegacyTiles.BesideIsWall | src/ts/game/tiles.ts:86-101 | Every world point left or right of the grid is in a wall. |
| LegacyTiles.BelowIsWall | src/ts/game/tiles.ts:86-101 | Every world point below the last row is in a wall. |
| LegacyTiles.AboveIsOpen | src/ts/game/tiles.ts:86-101 | Every world point above the grid, within its columns, is open. |
| LegacySeed.NewSeedBody | src/ts/entity/seed.ts:16-20 | The earlier seed is a plain entity of 160 x 192 units. |
| LegacySeed.FallenSpeeds | src/ts/entity/seed.ts:73-94 | LegacySeed.Fallen, the body before it moves: a tick has advanced the clock and set the horizontal speed and facing by the keys. The vertical speed is the jump speed or the old one, plus gravity. |
| LegacySeed.LaunchIgnoresClock | src/ts/entity/seed.ts:73-80 | Whether the seed jumps does not depend on its clock. |
| LegacySeed.Launch | src/ts/entity/seed.ts:78-80 | A jump changes only the vertical speed: it is set to minus the jump speed when the key was pressed on the ground, and stays otherwise. |
| LegacySeed.StepChanges | src/ts/entity/seed.ts:73-97 | LegacySeed.Step, a whole tick, changes only position, speed, facing and clock. Each speed component is what the keys, the jump and gravity give, or is stopped by a wall. |
| LegacySeed.SteerOnlyHorizontal | src/ts/entity/seed.ts:82-92 | Steering reads and writes only the horizontal speed and facing. |
| LegacySeed.AnimationName | src/ts/entity/seed.ts:22-45 | Off the ground the seed shows the jump frame of its band. On the ground it shows run exactly when moving and stand exactly when still. |
| LegacySeed.AnimationKept | src/ts/entity/seed.ts:22-45 | The current seed, when not planting, chooses the same animation as the earlier one. |
| LegacySeed.Seed.constructor | src/ts/entity/seed.ts:13-20 | A new seed's body is NewSeedBody, with run speed 1440 and jump speed 2400. |
| LegacySeed.Seed.Jump | src/ts/entity/seed.ts:58-60 | Only the vertical speed changes, to minus the jump speed. |
| LegacySeed.Seed.MoveLeft | src/ts/entity/seed.ts:63-66 | Only the speed and facing change, to the run speed to the left. |
| LegacySeed.Seed.MoveRight | src/ts/entity/seed.ts:68-71 | Only the speed and facing change, to the run speed to the right. |
| LegacySeed.Seed.Update | src/ts/entity/seed.ts:73-97 | The body after a tick is LegacySeed.Step of the old one. |
| LegacySeed.Seed.Accelerate | src/ts/entity/seed.ts:73-94 | Everything before the move is Fallen: the clock, the jump, the steering and gravity. |
| LegacySeed.Seed.JumpIfOnGround | src/ts/entity/seed.ts:78-80 | The seed jumps only when the key was pressed this frame and it is on the ground. |
| LegacySeed.Seed.Steer | src/ts/entity/seed.ts:82-92 | The new body is Seeds.Steer with the earlier run speed. |
| LegacySeed.Seed.Animation | src/ts/entity/seed.ts:22-45 | The animation chosen is AnimationName of the body's ground contact and speed. |
| GameLevel.ToHex | src/ts/game/level.ts:108 | A channel written in base 16 has at least one digit. Values below 16 have one digit and values below 256 at most two. |
| GameLevel.PadStart | src/ts/game/level.ts:108 | Padding keeps the string as its suffix, fills the front with the pad character, and reaches the requested length. |
| GameLevel.Hex2 | src/ts/game/level.ts:108 | A channel is written as exactly two characters. |
| GameLevel.Hex2IsPaddedHex | src/ts/game/level.ts:108 | The two characters are the channel's base-16 digits padded to length 2 with zeros. |
| GameLevel.Hex2RoundTrip | src/ts/game/level.ts:108 | Reading the two digits back gives the channel. |
| GameLevel.Hex2Injective | src/ts/game/level.ts:108 | Distinct channels are written differently. |
| GameLevel.PixelInImage | src/ts/game/level.ts:103-107 | For every pixel of a width x height image, the four bytes at (y x width + x) x 4 lie inside the data. |
| GameLevel.PixelToColorString | src/ts/game/level.ts:103-109 | The colour string of a pixel has six characters. |
| GameLevel.ColorStringRoundTrip | src/ts/game/level.ts:103-109 | The three pairs of the colour string read back as the pixel's red, green and blue bytes. |
| GameLevel.ColorStringIff | src/ts/game/level.ts:103-109 | A pixel's colour string equals that of r, g, b exactly when the pixel's channels are r, g, b. |
| GameLevel.ColorNames | src/ts/game/level.ts:36-52 | The strings ffffff, 000000 and ff0000 match exactly the white, black and pure red pixels. |
| GameLevel.DecodedTile | src/ts/game/level.ts:36-47 | A pixel decodes to a wall exactly when its colour string is 000000; every other colour decodes to an empty cell. |
| GameLevel.LastRedBeforeIsLast | src/ts/game/level.ts:38-49 | Scanning up to a given point finds the last red pixel before it in reading order, or finds none when there is none. |
| GameLevel.StartTileIsLastRed | src/ts/game/level.ts:34-49 | GameLevel.StartTile, the start tile, is the last red pixel in reading order. With no red pixel it is (0, 0). |
| GameLevel.DecodePixel | src/ts/game/level.ts:40-52 | White writes empty, black writes wall, red records the start and any other colour writes nothing. So the cell ends as DecodedTile and the start as the scan says. |
| GameLevel.DecodeRow | src/ts/game/level.ts:39-53 | Decoding a row extends the decoded part of the grid and the start scan to the end of that row. |
| GameLevel.DecodeImage | src/ts/game/level.ts:25-54 | A new width x height grid holds a wall exactly at the black pixels and empty elsewhere. The start tile is StartTile. |
| GameLevel.SpawnSeed | src/ts/game/level.ts:62-64 | The player seed is new and stands with its bottom centre at the given point. |
| GameLevel.Level.constructor | src/ts/game/level.ts:11-21 | A new level has no entities, a 0 x 0 grid and its start at the origin. |
| GameLevel.Level.InitFromImage | src/ts/game/level.ts:23-72 | The grid is decoded from the image. The start is the bottom-centre anchor of the start tile. The entities are exactly one new seed standing there. |
| GameLevel.Level.Update | src/ts/game/level.ts:74-79 | Every entity takes exactly one tick of LegacySeed.Step on the level's grid with this frame's keys. |

## Left out

- Layers.TileLayer.constructor: every cell, inside the extent or outside it, reads the fill value, because the model's layer is a total map. The source clamps reads outside the stored rows to the nearest stored cell, which for a new layer holds the same value.
- `src/ts/game/tile/tile-layer.ts` is not part of this model. `Layers.TileLayer` stands in for it: a total map from cells to tiles with an extent box. Writing a cell grows the extent to cover it. Reads clamped to the stored rows are not modelled, and neither is the content a growing layer gives to newly covered cells.
- `src/ts/common.ts` is not part of this model. `Common.CornersInDirection` follows the use of corners in `isTouchingTile`: the four corners without a direction, the two on the given side with one.
- The current seed's base entity, `src/ts/game/entity/entity.ts`, is not part of this model. The seed's physics uses `Entities.Entity`, generalised to read any tile grid for any wall value. `isStanding` is modelled as a wall or one-way platform one unit under a bottom corner.
- SeedEntity.Seed.Explode: the box the repair pass sweeps is a ghost output, because its exact bounds depend on how the layers grow in `tile-layer.ts`. The contract gives a lower bound: both old extents and the blasted block.
- SeedEntity.Seed.GrowVine: like Explode, the repair box is a ghost output with a lower bound: both old extents and the vine column.
- SeedEntity.Seed.Grow: like Explode, the repair box is a ghost output with the same lower bounds.
- Seeds.Sown: the flower branch takes whether the seed touches a glowing spot as a parameter, `onGlow`. SeedEntity computes it from the object layer with all four corners and no offset.
- SeedEntity.Seed.Plant: the target is computed before the planting flag and clock are set. The source sets them first, but the target does not read them.
- Rendering, sprites, sound effects (`SFX.play`), the camera and `cameraFocus` are not modelled, because they only draw or play sounds.
- The frame lookups of the Aseprite animations that trigger step sounds are not modelled, for the same reason.
- The planting slide uses `1 - Math.exp(-5 * dt)` as its easing fraction. This is floating point, so the fraction is an input, `ease`.
- The length of the planting animation comes from sprite data. It is the input `plantDuration`.
- The random seed kind (`Seeds.randomSeed`) and the seeded random generator in `constants.ts` are not modelled, because they draw random numbers.
- Reading the pixels of a level image through a canvas is not modelled. The image is an input: its width, height and RGBA bytes.
- The `console.log` for unknown colours and unknown base tiles is not modelled; those branches write nothing.
- A flower's sprite and an explosion's sprite are returned as `Spawn` values rather than pushed onto the level's entity list. Their own behaviour is not modelled.
- The game loop, the seed picker and the level list are not modelled; they only call into this core.
- Numbers are JavaScript doubles in the source. World coordinates here are exact reals and tile indices unbounded integers, so rounding is not modelled.
- The earlier `Level.initFromImage` calls `getTileCoord` on the earlier `Tiles`, which has no such method. The collision handlers in `src/ts/entity/entity.ts:94-120` likewise call `getTileCoordFromCoord`, which the earlier `Tiles` also lacks. The model uses the current `Tiles` formulas for both, `Layers.TileCoord` and `Layers.TileCoordFromCoord`.
- LegacyTiles.Tiles.SetTile: the source writes into the row array even for a column outside the grid. GetTile never reads such a column, so the model leaves the grid unchanged there and requires the row to exist.
- A right or downward collision leaves the body one unit short of the wall's edge, as the code does (`- 1`). It does not leave the body flush with the wall.
