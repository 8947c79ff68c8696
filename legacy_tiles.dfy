/**
  The earlier single-layer tile grid: a w x h array of rows of empty cells and
  walls. The level is walled in at its sides and below its last row, and
  open to the sky above its first row.
*/
module LegacyTiles {
  import opened Common
  import opened Constants
  import opened Layers

  datatype Tile = Empty | Wall

  /** Whether `q` is a stored cell of a w x h grid. */
  predicate InRange(w: int, h: int, q: Index) {
    0 <= q.x < w && 0 <= q.y < h
  }

  /** Whether `rows` holds h rows of w tiles each. */
  predicate Shaped(rows: seq<seq<Tile>>, w: int, h: int) {
    |rows| == h && forall y :: 0 <= y < h ==> |rows[y]| == w
  }

  /**
    The tile at `q` of a w x h grid stored as `rows`. (A cell missing from a
    row that is too short would read as undefined, which equals no tile;
    Shaped rules it out.)
  */
  function Lookup(rows: seq<seq<Tile>>, w: int, h: int, q: Index): Tile {
    if q.x < 0 || q.x >= w || q.y >= h then Wall
    else if q.y < 0 then Empty
    else if q.y < |rows| && q.x < |rows[q.y]| then rows[q.y][q.x]
    else Empty
  }

  class Tiles {
    var tiles: seq<seq<Tile>>
    var w: nat
    var h: nat

    predicate Valid()
      reads this
    {
      Shaped(tiles, w, h)
    }

    /** The grid as a value, read with the boundary policy of GetTile. */
    function Grid(): Grid<Tile>
      reads this
    {
      var rows, w, h := tiles, this.w, this.h;
      q => Lookup(rows, w, h, q)
    }

    /** A w x h grid of empty cells. */
    constructor(w: nat, h: nat)
      ensures Valid() && this.w == w && this.h == h
      ensures forall q :: InRange(w, h, q) ==> GetTile(q) == Empty
    {
      this.w, this.h := w, h;
      tiles := [];
      new;
      var y := 0;
      while y < h
        invariant this.w == w && this.h == h
        invariant 0 <= y <= h && |tiles| == y
        invariant forall r :: 0 <= r < y ==> |tiles[r]| == w
        invariant forall r, i :: 0 <= r < y && 0 <= i < |tiles[r]| ==> tiles[r][i] == Empty
      {
        var row: seq<Tile> := [];
        var x := 0;
        while x < w
          invariant 0 <= x <= w && |row| == x
          invariant forall i :: 0 <= i < x ==> row[i] == Empty
        {
          row := row + [Empty];
          x := x + 1;
        }
        tiles := tiles + [row];
        y := y + 1;
      }
    }

    /**
      The tile at `q`: a wall beside the grid or below it, open sky above it
      (within its columns), and the stored tile inside it.
    */
    function GetTile(q: Index): (t: Tile)
      reads this
      ensures q.x < 0 || q.x >= w || q.y >= h ==> t == Wall
      ensures 0 <= q.x < w && q.y < 0 ==> t == Empty
      ensures Valid() && InRange(w, h, q) ==> t == tiles[q.y][q.x]
      ensures t == Grid()(q)
    {
      Lookup(tiles, w, h, q)
    }

    /**
      Stores `tile` at `p`, whose row must exist. A column outside the grid
      is stored beside the row, where GetTile never looks, so the grid is unchanged.
    */
    method SetTile(p: Index, tile: Tile)
      requires Valid() && 0 <= p.y < h
      modifies this
      ensures Valid() && w == old(w) && h == old(h)
      ensures 0 <= p.x < w ==> GetTile(p) == tile
      ensures forall q :: q != p ==> GetTile(q) == old(GetTile(q))
      ensures !(0 <= p.x < w) ==> tiles == old(tiles)
    {
      if 0 <= p.x < w {
        tiles := tiles[p.y := tiles[p.y][p.x := tile]];
      }
    }

    /** The tile holding world point `p`. */
    function GetTileAtCoord(p: Point): (t: Tile)
      reads this
      ensures t == GetTile(CellOfCoord(p))
    {
      GetTile(Index(TileOf(p.x), TileOf(p.y)))
    }
  }

  /** Every point left or right of the grid's columns is inside a wall. */
  lemma BesideIsWall(t: Tiles, p: Point)
    requires p.x < 0.0 || p.x >= (t.w * TILE_SIZE) as real
    ensures t.GetTileAtCoord(p) == Wall
  {
    var k := TileOf(p.x);
    if p.x < 0.0 {
      assert k < 0;
    } else {
      assert k >= t.w;
    }
  }

  /** Every point below the grid's last row is inside a wall. */
  lemma BelowIsWall(t: Tiles, p: Point)
    requires p.y >= (t.h * TILE_SIZE) as real
    ensures t.GetTileAtCoord(p) == Wall
  {
    assert TileOf(p.y) >= t.h;
  }

  /** Every point above the grid, within its columns, is open. */
  lemma AboveIsOpen(t: Tiles, p: Point)
    requires 0.0 <= p.x < (t.w * TILE_SIZE) as real && p.y < 0.0
    ensures t.GetTileAtCoord(p) == Empty
  {
    var k := TileOf(p.x);
    assert 0 <= k < t.w;
    assert TileOf(p.y) < 0;
  }
}
