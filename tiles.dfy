/**
  The level's tile grid: a base layer and an object layer read together as
  the physics tiles entities collide with, the repair pass that removes
  objects whose support is gone, and the nightly advance of objects.
*/
module TileGrid {
  import opened Common
  import opened Layers
  import opened Constants
  import opened BaseLayer
  import opened ObjectLayer

  /** How a tile behaves for the physics. */
  datatype PhysicTile = Empty | Wall | OneWayPlatform

  /** The physics tile of a cell: dirt is a wall; otherwise a plant top is a one-way platform. */
  function Classify(b: BaseTile, o: ObjectTile): (r: PhysicTile)
    ensures r == PhysicTile.Wall <==> b == BaseTile.Dirt
    ensures r == PhysicTile.OneWayPlatform <==> b != BaseTile.Dirt && o == ObjectTile.PlantTop
  {
    if b == BaseTile.Dirt then PhysicTile.Wall
    else if o == ObjectTile.PlantTop then PhysicTile.OneWayPlatform
    else PhysicTile.Empty
  }

  function Above(q: Index): Index { Index(q.x, q.y - 1) }
  function Below(q: Index): Index { Index(q.x, q.y + 1) }

  /** Objects that must stand on dirt. */
  predicate NeedsDirt(o: ObjectTile) {
    o == ObjectTile.Glow || o == ObjectTile.PlantBase || o == ObjectTile.DeadPlant
  }

  /**
    Whether object `o` may stay where it is, given the base tile below it and
    the object tiles above and below it: glows, plant bases and dead plants
    need dirt below, a plant base needs a plant top above, a plant top needs a
    plant base below.
  */
  predicate Supported(o: ObjectTile, baseBelow: BaseTile, objAbove: ObjectTile, objBelow: ObjectTile) {
    && (NeedsDirt(o) ==> baseBelow == BaseTile.Dirt)
    && (o == ObjectTile.PlantBase ==> objAbove == ObjectTile.PlantTop)
    && (o == ObjectTile.PlantTop ==> objBelow == ObjectTile.PlantBase)
  }

  /** Whether the object at `q` is supported in the layers `b` and `o`. */
  predicate ValidAt(b: Grid<BaseTile>, o: Grid<ObjectTile>, q: Index) {
    Supported(o(q), b(Below(q)), o(Above(q)), o(Below(q)))
  }

  /** The box the repair pass sweeps: from the smaller first column and row of two extents to the larger last ones. */
  function SweepBox(e1: Box, e2: Box): (r: Box)
    ensures forall q :: InBox(e1, q) ==> InBox(r, q)
    ensures forall q :: InBox(e2, q) ==> InBox(r, q)
  {
    var x0 := Min(e1.x, e2.x);
    var y0 := Min(e1.y, e2.y);
    var x1 := Max(e1.x + e1.w - 1, e2.x + e2.w - 1);
    var y1 := Max(e1.y + e1.h - 1, e2.y + e2.h - 1);
    Box(x0, y0, x1 - x0 + 1, y1 - y0 + 1)
  }

  /**
    The object at `q` after one row-major repair pass over `box`: a cell of
    the box is cleared when it is not supported at the moment the pass visits
    it, that is, reading the row above as already repaired and the cell below
    as it was.
  */
  function Repaired(b: Grid<BaseTile>, o: Grid<ObjectTile>, box: Box, q: Index): (t: ObjectTile)
    decreases q.y - box.y
    ensures t == o(q) || t == ObjectTile.Empty
    ensures !InBox(box, q) ==> t == o(q)
  {
    if !InBox(box, q) then o(q)
    else
      var above := if InBox(box, Above(q)) then Repaired(b, o, box, Above(q)) else o(Above(q));
      if Supported(o(q), b(Below(q)), above, o(Below(q))) then o(q) else ObjectTile.Empty
  }

  /** The object above `q` as the repair pass sees it when it visits `q`. */
  function SeenAbove(b: Grid<BaseTile>, o: Grid<ObjectTile>, box: Box, q: Index): ObjectTile {
    if InBox(box, Above(q)) then Repaired(b, o, box, Above(q)) else o(Above(q))
  }

  /** A cell of the box is cleared exactly when it is unsupported as the pass sees it. */
  lemma RepairedClearsUnsupported(b: Grid<BaseTile>, o: Grid<ObjectTile>, box: Box, q: Index)
    requires InBox(box, q)
    ensures Repaired(b, o, box, q) == o(q) <==>
              o(q) == ObjectTile.Empty || Supported(o(q), b(Below(q)), SeenAbove(b, o, box, q), o(Below(q)))
  {
  }

  /** Cells holding nothing, a vine or a vine top never need support and are never cleared. */
  lemma UnsupportedKindsSurvive(b: Grid<BaseTile>, o: Grid<ObjectTile>, box: Box, q: Index)
    requires o(q) == ObjectTile.Empty || o(q) == ObjectTile.Vine || o(q) == ObjectTile.VineTop
    ensures Repaired(b, o, box, q) == o(q)
  {
  }

  /** A glow, plant base or dead plant without dirt below it is cleared. */
  lemma ObjectWithoutDirtCleared(b: Grid<BaseTile>, o: Grid<ObjectTile>, box: Box, q: Index)
    requires InBox(box, q) && NeedsDirt(o(q)) && b(Below(q)) != BaseTile.Dirt
    ensures Repaired(b, o, box, q) == ObjectTile.Empty
  {
  }

  /** A plant base on dirt under a plant top, and that plant top, both survive the pass. */
  lemma {:induction false} PlantOnDirtSurvives(b: Grid<BaseTile>, o: Grid<ObjectTile>, box: Box, q: Index)
    requires o(q) == ObjectTile.PlantBase && o(Above(q)) == ObjectTile.PlantTop && b(Below(q)) == BaseTile.Dirt
    ensures Repaired(b, o, box, Above(q)) == ObjectTile.PlantTop
    ensures Repaired(b, o, box, q) == ObjectTile.PlantBase
  {
    assert Below(Above(q)) == q;
    assert Repaired(b, o, box, Above(q)) == ObjectTile.PlantTop;
  }

  /**
    The pass is one sweep, not a fixed point: a plant top whose plant base is
    cleared survives the pass, because its row was visited before the base's;
    a second pass clears it.
  */
  lemma OrphanTopSurvivesOnePass()
    ensures var b: Grid<BaseTile> := _ => BaseTile.Empty;
            var o: Grid<ObjectTile> := k =>
              if k == Index(0, 0) then ObjectTile.PlantTop
              else if k == Index(0, 1) then ObjectTile.PlantBase
              else ObjectTile.Empty;
            var box := Box(0, 0, 1, 2);
            var once: Grid<ObjectTile> := k => Repaired(b, o, box, k);
            && Repaired(b, o, box, Index(0, 0)) == ObjectTile.PlantTop
            && Repaired(b, o, box, Index(0, 1)) == ObjectTile.Empty
            && Repaired(b, once, box, Index(0, 0)) == ObjectTile.Empty
  {
    var b: Grid<BaseTile> := _ => BaseTile.Empty;
    var o: Grid<ObjectTile> := k =>
      if k == Index(0, 0) then ObjectTile.PlantTop
      else if k == Index(0, 1) then ObjectTile.PlantBase
      else ObjectTile.Empty;
    var box := Box(0, 0, 1, 2);
    var once: Grid<ObjectTile> := k => Repaired(b, o, box, k);
    assert Repaired(b, o, box, Index(0, 0)) == ObjectTile.PlantTop;
    assert once(Index(0, 1)) == ObjectTile.Empty;
  }

  /** The pass depends only on the contents of the layers, not on how they are written down. */
  lemma {:induction false} RepairedCongruent(b1: Grid<BaseTile>, b2: Grid<BaseTile>, o1: Grid<ObjectTile>, o2: Grid<ObjectTile>, box: Box, q: Index)
    requires forall k :: b1(k) == b2(k)
    requires forall k :: o1(k) == o2(k)
    ensures Repaired(b1, o1, box, q) == Repaired(b2, o2, box, q)
    decreases q.y - box.y
  {
    if InBox(box, q) && InBox(box, Above(q)) {
      RepairedCongruent(b1, b2, o1, o2, box, Above(q));
    }
  }

  /** Whether every cell of `box` is supported. */
  ghost predicate AllValid(b: Grid<BaseTile>, o: Grid<ObjectTile>, box: Box) {
    forall q :: InBox(box, q) ==> ValidAt(b, o, q)
  }

  /** On layers whose cells are all supported the pass changes nothing. */
  lemma {:induction false} ValidLayersAreFixed(b: Grid<BaseTile>, o: Grid<ObjectTile>, box: Box, q: Index)
    requires AllValid(b, o, box)
    ensures Repaired(b, o, box, q) == o(q)
    decreases q.y - box.y
  {
    if InBox(box, q) {
      if InBox(box, Above(q)) {
        ValidLayersAreFixed(b, o, box, Above(q));
      }
      assert ValidAt(b, o, q);
    }
  }

  /** The two layers of the level. */
  class Tiles {
    const base: TileLayer<BaseTile>
    const objects: TileLayer<ObjectTile>

    /** A w x h grid: a base layer with floor and walls, and an empty object layer. */
    constructor(w: nat, h: nat)
      ensures fresh(base) && fresh(objects)
      ensures base.Extent() == Box(0, 0, w, h) && objects.Extent() == Box(0, 0, w, h)
      ensures forall q :: base.cell(q) == Initial(w, h, q)
      ensures forall q :: objects.cell(q) == ObjectTile.Empty
    {
      var b := NewBaseLayer(w, h);
      base := b;
      objects := new TileLayer(w, h, ObjectTile.Empty);
    }

    /** The physics tile at index `q`. */
    function GetTile(q: Index): (r: PhysicTile)
      reads this, base, objects
      ensures r == PhysicTile.Wall <==> base.cell(q) == BaseTile.Dirt
      ensures r == PhysicTile.OneWayPlatform <==> base.cell(q) != BaseTile.Dirt && objects.cell(q) == ObjectTile.PlantTop
    {
      Classify(base.cell(q), objects.cell(q))
    }

    /** The physics tile holding world point `p`. */
    function GetTileAtCoord(p: Point): (r: PhysicTile)
      reads this, base, objects
      ensures forall q: Index ::
        && (q.x * TILE_SIZE) as real <= p.x < ((q.x + 1) * TILE_SIZE) as real
        && (q.y * TILE_SIZE) as real <= p.y < ((q.y + 1) * TILE_SIZE) as real
        ==> r == GetTile(q)
    {
      assert forall q: Index ::
        && (q.x * TILE_SIZE) as real <= p.x < ((q.x + 1) * TILE_SIZE) as real
        && (q.y * TILE_SIZE) as real <= p.y < ((q.y + 1) * TILE_SIZE) as real
        ==> q == CellOfCoord(p)
      by {
        forall q: Index |
          && (q.x * TILE_SIZE) as real <= p.x < ((q.x + 1) * TILE_SIZE) as real
          && (q.y * TILE_SIZE) as real <= p.y < ((q.y + 1) * TILE_SIZE) as real
          ensures q == CellOfCoord(p)
        {
          TileOfUnique(p.x, q.x);
          TileOfUnique(p.y, q.y);
        }
      }
      GetTile(CellOfCoord(p))
    }

    /** The physics tiles of the whole grid, as a value. */
    function Physics(): Grid<PhysicTile>
      reads this, base, objects
    {
      var b, o := base.cell, objects.cell;
      q => Classify(b(q), o(q))
    }

    /** Whether the cell below `q` holds dirt, that is, stands as a wall whatever object it holds. */
    function HasDirtUnderneath(q: Index): (r: bool)
      reads this, base
      ensures forall o :: r <==> Classify(base.cell(Below(q)), o) == PhysicTile.Wall
    {
      base.cell(Below(q)) == BaseTile.Dirt
    }

    /** Whether the object at `q` is supported. */
    function IsValidTile(q: Index): (r: bool)
      reads this, base, objects
      ensures r <==> ValidAt(base.cell, objects.cell, q)
      ensures objects.cell(q) in {ObjectTile.Empty, ObjectTile.Vine, ObjectTile.VineTop} ==> r
      ensures objects.cell(q) == ObjectTile.Glow ==> (r <==> HasDirtUnderneath(q))
    {
      var o := objects.cell(q);
      && (NeedsDirt(o) ==> HasDirtUnderneath(q))
      && (o == ObjectTile.PlantBase ==> objects.cell(Above(q)) == ObjectTile.PlantTop)
      && (o == ObjectTile.PlantTop ==> objects.cell(Below(q)) == ObjectTile.PlantBase)
    }

    /** The box swept by FixInvalidTiles. */
    function RepairBox(): Box
      reads this, base, objects
    {
      SweepBox(base.Extent(), objects.Extent())
    }

    /** Clears the object at `p` and hollows the dirt there into a cave. */
    method ExplodeAtCoord(p: Point)
      modifies base, objects
      ensures forall k :: objects.cell(k) == Put(old(objects.cell), CellOfCoord(p), ObjectTile.Empty)(k)
      ensures forall k :: base.cell(k) == ExplodeCell(old(base.cell), CellOfCoord(p))(k)
      ensures Grows(old(objects.Extent()), objects.Extent(), CellOfCoord(p))
      ensures old(base.cell(CellOfCoord(p))) == BaseTile.Dirt ==> Grows(old(base.Extent()), base.Extent(), CellOfCoord(p))
      ensures old(base.cell(CellOfCoord(p))) != BaseTile.Dirt ==> base.Extent() == old(base.Extent())
      ensures GetTileAtCoord(p) == PhysicTile.Empty
    {
      objects.SetTileAtCoord(p, ObjectTile.Empty);
      BaseLayer.ExplodeAtCoord(base, p);
    }

    /** Clears every object that is unsupported when a row-major pass over the union of the extents reaches it. */
    method FixInvalidTiles()
      modifies objects
      ensures forall q :: objects.cell(q) == Repaired(base.cell, old(objects.cell), old(RepairBox()), q)
      ensures forall q :: InBox(old(objects.Extent()), q) ==> InBox(objects.Extent(), q)
    {
      var startX := Min(base.x, objects.x);
      var startY := Min(base.y, objects.y);
      var endX := Max(base.x + base.w - 1, objects.x + objects.w - 1);
      var endY := Max(base.y + base.h - 1, objects.y + objects.h - 1);
      var box := Box(startX, startY, endX - startX + 1, endY - startY + 1);
      ghost var o0 := objects.cell;
      var j := 0;
      while j < box.h
        invariant 0 <= j <= Max(box.h, 0)
        invariant forall q :: InBox(old(objects.Extent()), q) ==> InBox(objects.Extent(), q)
        invariant forall q :: objects.cell(q) == RepairedSoFar(base.cell, o0, box, j, 0, q)
      {
        RepairRow(o0, box, j);
        j := j + 1;
      }
    }

    /** The repair pass over row box.y+j of `box`, which started from the objects `o0`. */
    method RepairRow(ghost o0: Grid<ObjectTile>, box: Box, j: int)
      requires 0 <= box.w && 0 <= j < box.h
      requires forall q :: objects.cell(q) == RepairedSoFar(base.cell, o0, box, j, 0, q)
      modifies objects
      ensures forall q :: objects.cell(q) == RepairedSoFar(base.cell, o0, box, j + 1, 0, q)
      ensures forall q :: InBox(old(objects.Extent()), q) ==> InBox(objects.Extent(), q)
    {
      var i := 0;
      while i < box.w
        invariant 0 <= i <= Max(box.w, 0)
        invariant forall q :: InBox(old(objects.Extent()), q) ==> InBox(objects.Extent(), q)
        invariant forall q :: objects.cell(q) == RepairedSoFar(base.cell, o0, box, j, i, q)
      {
        var q := Index(box.x + i, box.y + j);
        ghost var before := objects.cell;
        assert IsValidTile(q) == ValidAt(base.cell, before, q);
        if !IsValidTile(q) {
          objects.SetTile(q, ObjectTile.Empty);
        }
        RepairStep(base.cell, o0, box, j, i, before, objects.cell);
        i := i + 1;
      }
      RepairNextRow(base.cell, o0, box, j);
    }

    /** Moves every object on by one day. */
    method AdvanceDay()
      modifies objects
      ensures objects.Extent() == old(objects.Extent())
      ensures forall q :: objects.cell(q) == NextDay(old(objects.cell), objects.Extent(), q)
    {
      ObjectLayer.AdvanceDay(objects);
    }
  }

  /** The object layer when the repair pass has visited exactly the cells Passed(box, _, j, i). */
  function RepairedSoFar(b: Grid<BaseTile>, o: Grid<ObjectTile>, box: Box, j: int, i: int, q: Index): ObjectTile {
    if Passed(box, q, j, i) then Repaired(b, o, box, q) else o(q)
  }

  /** One step of the repair pass: the cell at column box.x+i of row box.y+j is cleared if unsupported. */
  lemma RepairStep(b: Grid<BaseTile>, o: Grid<ObjectTile>, box: Box, j: int, i: int,
                   before: Grid<ObjectTile>, after: Grid<ObjectTile>)
    requires 0 <= i < box.w && 0 <= j < box.h
    requires forall k :: before(k) == RepairedSoFar(b, o, box, j, i, k)
    requires var q := Index(box.x + i, box.y + j);
             after(q) == if ValidAt(b, before, q) then before(q) else ObjectTile.Empty
    requires forall k :: k != Index(box.x + i, box.y + j) ==> after(k) == before(k)
    ensures forall k :: after(k) == RepairedSoFar(b, o, box, j, i + 1, k)
  {
    var q := Index(box.x + i, box.y + j);
    assert before(q) == RepairedSoFar(b, o, box, j, i, q);
    assert before(Above(q)) == RepairedSoFar(b, o, box, j, i, Above(q));
    assert before(Below(q)) == RepairedSoFar(b, o, box, j, i, Below(q));
    assert after(q) == Repaired(b, o, box, q);
  }

  /** A finished row of the repair pass is the same as the start of the next one. */
  lemma RepairNextRow(b: Grid<BaseTile>, o: Grid<ObjectTile>, box: Box, j: int)
    requires 0 <= box.w && 0 <= j
    ensures forall k :: RepairedSoFar(b, o, box, j, box.w, k) == RepairedSoFar(b, o, box, j + 1, 0, k)
  {
  }
}
