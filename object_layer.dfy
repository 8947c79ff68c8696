/**
  The layer of objects that sit in front of the ground: plants (a base and
  the one-way platform on top of it), dead plants, glowing planting spots and
  vines. Objects last a bounded number of days.
*/
module ObjectLayer {
  import opened Common
  import opened Layers

  datatype ObjectTile = Empty | PlantBase | PlantTop | DeadPlant | Glow | Vine | VineTop

  /** The tile a cell holds after one night. */
  function NextDayTile(t: ObjectTile): (r: ObjectTile)
    ensures r == Empty || r == Glow || r == DeadPlant
    ensures r == DeadPlant <==> t == PlantBase
    ensures r == Glow <==> t == Glow
  {
    match t
    case PlantTop | DeadPlant | Vine | VineTop => Empty
    case PlantBase => DeadPlant
    case _ => t
  }

  /** Two nights leave only empty cells and glowing spots. */
  lemma TwoNightsSettle(t: ObjectTile)
    ensures NextDayTile(NextDayTile(t)) == Empty || NextDayTile(NextDayTile(t)) == Glow
  {
  }

  /** Empty cells and glowing spots are never changed by a night. */
  lemma SettledTileIsFixed(t: ObjectTile)
    requires t == Empty || t == Glow
    ensures NextDayTile(t) == t
  {
  }

  /** A layer's content after one night: every cell of the extent `b` moves on a day, the rest is untouched. */
  function NextDay(g: Grid<ObjectTile>, b: Box, q: Index): (r: ObjectTile)
    ensures !InBox(b, q) ==> r == g(q)
    ensures InBox(b, q) ==> r == Empty || r == Glow || r == DeadPlant
    ensures InBox(b, q) ==> (r == DeadPlant <==> g(q) == PlantBase) && (r == Glow <==> g(q) == Glow)
  {
    if InBox(b, q) then NextDayTile(g(q)) else g(q)
  }

  /** Moves every stored object on by one day. */
  method AdvanceDay(layer: TileLayer<ObjectTile>)
    modifies layer
    ensures layer.Extent() == old(layer.Extent())
    ensures forall q :: layer.cell(q) == NextDay(old(layer.cell), layer.Extent(), q)
  {
    layer.MapCells(NextDayTile);
  }

  /** After two nights every cell of the extent is empty or glowing. */
  lemma {:induction false} TwoDaysClearExtent(g: Grid<ObjectTile>, b: Box, q: Index)
    requires InBox(b, q)
    ensures var g1 := (k: Index) => NextDay(g, b, k);
            NextDay(g1, b, q) == Empty || NextDay(g1, b, q) == Glow
  {
    TwoNightsSettle(g(q));
  }

  /** A night changes no cell of a layer that holds only empty cells and glowing spots. */
  lemma {:induction false} SettledLayerIsFixed(g: Grid<ObjectTile>, b: Box)
    requires forall q :: g(q) == Empty || g(q) == Glow
    ensures forall q :: NextDay(g, b, q) == g(q)
  {
  }
}
