/**
  The tile layer every grid of the game is built on: a grid of tile values
  with an extent (the box of cells it stores), addressed by tile index or by
  world coordinate.

  The layer's own source is not part of this model. Its content is kept as a
  total map from indices to tiles, so a write is read back at its index and no
  other cell changes. A write inside the extent leaves the extent as it is; a
  write outside grows it to some box that still covers the old extent and the
  written cell (the layer's exact growth policy is not modelled).
*/
module Layers {
  import opened Common
  import opened Constants

  /** A box of tile indices: columns x .. x+w-1, rows y .. y+h-1. */
  datatype Box = Box(x: int, y: int, w: int, h: int)

  predicate InBox(b: Box, q: Index) {
    b.x <= q.x < b.x + b.w && b.y <= q.y < b.y + b.h
  }

  function Min(a: int, b: int): int { if a <= b then a else b }
  function Max(a: int, b: int): int { if a <= b then b else a }

  /** The extent after a write at `q`: its first and last column and row stretched to reach `q`. */
  function Cover(b: Box, q: Index): (r: Box)
    ensures InBox(r, q)
    ensures forall k :: InBox(b, k) ==> InBox(r, k)
    ensures InBox(b, q) ==> r == b
  {
    var x0 := Min(b.x, q.x);
    var y0 := Min(b.y, q.y);
    var x1 := Max(b.x + b.w - 1, q.x);
    var y1 := Max(b.y + b.h - 1, q.y);
    Box(x0, y0, x1 - x0 + 1, y1 - y0 + 1)
  }

  /**
    How an extent may change on a write at `q`: it comes to hold `q`, keeps
    every cell it held, and stays as it was when it already held `q`.
  */
  ghost predicate Grows(before: Box, after: Box, q: Index) {
    && InBox(after, q)
    && (forall k :: InBox(before, k) ==> InBox(after, k))
    && (InBox(before, q) ==> after == before)
  }

  /** The column (or row) of the tile holding world coordinate `c`: floor(c / TILE_SIZE). */
  function TileOf(c: real): (k: int)
    ensures (k * TILE_SIZE) as real <= c < ((k + 1) * TILE_SIZE) as real
  {
    (c / TILE_SIZE as real).Floor
  }

  /** TileOf is the only column whose span holds `c`. */
  lemma TileOfUnique(c: real, k: int)
    requires (k * TILE_SIZE) as real <= c < ((k + 1) * TILE_SIZE) as real
    ensures TileOf(c) == k
  {
  }

  /** Moving a coordinate by whole tiles moves its tile by as many. */
  lemma TileOfShift(c: real, n: int)
    ensures TileOf(c + (n * TILE_SIZE) as real) == TileOf(c) + n
  {
    var k := TileOf(c);
    TileOfUnique(c + (n * TILE_SIZE) as real, k + n);
  }

  /** The tile index holding a world point. */
  function CellOfCoord(p: Point): Index {
    Index(TileOf(p.x), TileOf(p.y))
  }

  /**
    The world point inside tile `q` at `anchor`: (0, 0) is its top-left
    coordinate and (1, 1) its bottom-right one, TILE_SIZE - 1 further on.
  */
  function TileCoord(q: Index, anchor: Point): (p: Point)
    ensures 0.0 <= anchor.x <= 1.0 ==> TileOf(p.x) == q.x
    ensures 0.0 <= anchor.y <= 1.0 ==> TileOf(p.y) == q.y
    ensures anchor == Point(0.0, 0.0) ==> p == Point((q.x * TILE_SIZE) as real, (q.y * TILE_SIZE) as real)
  {
    var p := Point((q.x * TILE_SIZE) as real + (TILE_SIZE - 1) as real * anchor.x,
                   (q.y * TILE_SIZE) as real + (TILE_SIZE - 1) as real * anchor.y);
    p
  }

  /** The anchor point of the tile that holds world point `p`. */
  function TileCoordFromCoord(p: Point, anchor: Point): (r: Point)
    ensures 0.0 <= anchor.x <= 1.0 ==> TileOf(r.x) == TileOf(p.x)
    ensures 0.0 <= anchor.y <= 1.0 ==> TileOf(r.y) == TileOf(p.y)
  {
    TileCoord(CellOfCoord(p), anchor)
  }

  /** A growable grid of tiles of type T. */
  class TileLayer<T(==)> {
    var x: int
    var y: int
    var w: nat
    var h: nat
    var cell: Grid<T>

    /** A w x h layer at the origin; every cell starts as `fill`. */
    constructor(w: nat, h: nat, fill: T)
      ensures this.x == 0 && this.y == 0 && this.w == w && this.h == h
      ensures forall q :: cell(q) == fill
    {
      this.x, this.y, this.w, this.h := 0, 0, w, h;
      cell := _ => fill;
    }

    function Extent(): Box
      reads this
    {
      Box(x, y, w, h)
    }

    function GetTile(q: Index): T
      reads this
    {
      cell(q)
    }

    function GetTileAtCoord(p: Point): T
      reads this
    {
      cell(CellOfCoord(p))
    }

    method SetTile(q: Index, v: T)
      modifies this
      ensures cell(q) == v
      ensures forall k :: k != q ==> cell(k) == old(cell(k))
      ensures Grows(old(Extent()), Extent(), q)
    {
      var b := Cover(Extent(), q);
      x, y, w, h := b.x, b.y, b.w, b.h;
      cell := Put(cell, q, v);
    }

    method SetTileAtCoord(p: Point, v: T)
      modifies this
      ensures cell(CellOfCoord(p)) == v
      ensures forall k :: k != CellOfCoord(p) ==> cell(k) == old(cell(k))
      ensures Grows(old(Extent()), Extent(), CellOfCoord(p))
    {
      SetTile(CellOfCoord(p), v);
    }

    /** Whether the row-major sweep over the extent has passed `q` when it is at column x+i of row y+j. */
    predicate Visited(q: Index, j: int, i: int)
      reads this
    {
      InBox(Box(x, y, w, j), q) || InBox(Box(x, y + j, i, 1), q)
    }

    /** Replaces every stored cell by `f` of itself, row by row; cells outside the extent keep their value. */
    method MapCells(f: T -> T)
      modifies this
      ensures Extent() == old(Extent())
      ensures forall q :: cell(q) == if InBox(Extent(), q) then f(old(cell(q))) else old(cell(q))
    {
      ghost var c0 := cell;
      var j := 0;
      while j < h
        invariant 0 <= j <= h
        invariant Extent() == old(Extent())
        invariant forall q :: cell(q) == if InBox(Box(x, y, w, j), q) then f(c0(q)) else c0(q)
      {
        var i := 0;
        while i < w
          invariant 0 <= i <= w
          invariant Extent() == old(Extent())
          invariant forall q :: cell(q) == if Visited(q, j, i) then f(c0(q)) else c0(q)
        {
          var q := Index(x + i, y + j);
          cell := Put(cell, q, f(cell(q)));
          i := i + 1;
        }
        j := j + 1;
      }
    }
  }
}
