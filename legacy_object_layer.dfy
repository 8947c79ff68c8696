/**
  The earlier object layer, before vines: plants, dead plants and glowing
  planting spots, with the same nightly decay as the current layer.
*/
module LegacyObjectLayer {
  import opened Common
  import opened Layers
  import O = ObjectLayer

  datatype ObjectTile = Empty | PlantBase | PlantTop | DeadPlant | Glow

  /** The tile a cell holds after one night. */
  function NextDayTile(t: ObjectTile): (r: ObjectTile)
    ensures r == Empty || r == Glow || r == DeadPlant
    ensures r == DeadPlant <==> t == PlantBase
    ensures r == Glow <==> t == Glow
  {
    match t
    case PlantBase => DeadPlant
    case PlantTop => Empty
    case DeadPlant => Empty
    case _ => t
  }

  /** Two nights leave only empty cells and glowing spots. */
  lemma TwoNightsSettle(t: ObjectTile)
    ensures NextDayTile(NextDayTile(t)) == Empty || NextDayTile(NextDayTile(t)) == Glow
  {
  }

  /** The same tile in the current, larger set of objects. */
  function Upgrade(t: ObjectTile): (r: O.ObjectTile)
    ensures r != O.Vine && r != O.VineTop
  {
    match t
    case Empty => O.Empty
    case PlantBase => O.PlantBase
    case PlantTop => O.PlantTop
    case DeadPlant => O.DeadPlant
    case Glow => O.Glow
  }

  /** Adding vines changed nothing for the older tiles: a night does to each what it did before. */
  lemma NightUnchangedByVines(t: ObjectTile)
    ensures O.NextDayTile(Upgrade(t)) == Upgrade(NextDayTile(t))
  {
  }

  /** Distinct older tiles stay distinct in the current set. */
  lemma UpgradeInjective(t1: ObjectTile, t2: ObjectTile)
    requires t1 != t2
    ensures Upgrade(t1) != Upgrade(t2)
  {
  }

  /** Moves every stored object on by one day. */
  method AdvanceDay(layer: TileLayer<ObjectTile>)
    modifies layer
    ensures layer.Extent() == old(layer.Extent())
    ensures forall q :: layer.cell(q) == if InBox(layer.Extent(), q) then NextDayTile(old(layer.cell(q))) else old(layer.cell(q))
  {
    layer.MapCells(NextDayTile);
  }
}
