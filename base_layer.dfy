/**
  The structural layer of the level: empty space, dirt, caves hollowed out of
  dirt, and the placeholder Unknown used while a level is decoded.
*/
module BaseLayer {
  import opened Common
  import opened Layers

  datatype BaseTile = Empty | Dirt | Cave | Unknown

  /** The enum's numeric value, by which neighbouring tiles are sorted. */
  function Value(t: BaseTile): nat {
    match t
    case Empty => 0
    case Dirt => 1
    case Cave => 2
    case Unknown => 3
  }

  /** Whether `q` lies on the floor (last row) or on a side wall (first or last column) of a w x h layer. */
  predicate IsBoundary(w: int, h: int, q: Index) {
    q.y == h - 1 || q.x == 0 || q.x == w - 1
  }

  /** The content of a fresh w x h base layer: dirt on the boundary of the extent, empty everywhere else. */
  function Initial(w: int, h: int, q: Index): BaseTile {
    if InBox(Box(0, 0, w, h), q) && IsBoundary(w, h, q) then Dirt else Empty
  }

  /** The content after the fill loop's write of row `y` up to column `x` (exclusive), before its two wall writes. */
  function PartRow(w: int, h: int, y: int, x: int, q: Index): BaseTile {
    if q.y < y then Initial(w, h, q) else if q.y == y && 0 <= q.x < x && y == h - 1 then Dirt else Empty
  }

  /** A w x h base layer with a dirt floor and two dirt side walls. */
  method NewBaseLayer(w: nat, h: nat) returns (layer: TileLayer<BaseTile>)
    ensures fresh(layer)
    ensures layer.Extent() == Box(0, 0, w, h)
    ensures forall q :: layer.cell(q) == Initial(w, h, q)
  {
    layer := new TileLayer(w, h, Empty);
    var y := 0;
    while y < h
      invariant 0 <= y <= h
      invariant layer.Extent() == Box(0, 0, w, h)
      invariant forall q :: layer.cell(q) == PartRow(w, h, y, 0, q)
    {
      var x := 0;
      while x < w
        invariant 0 <= x <= w
        invariant layer.Extent() == Box(0, 0, w, h)
        invariant forall q :: layer.cell(q) == PartRow(w, h, y, x, q)
      {
        layer.cell := Put(layer.cell, Index(x, y), if y == h - 1 then Dirt else Empty);
        x := x + 1;
      }
      // With w == 0 the write to column 0 lengthens the row past the layer's zero width and the
      // write to column -1 lands on a non-index property; neither cell is inside the extent.
      if w > 0 {
        layer.cell := Put(layer.cell, Index(0, y), Dirt);
        layer.cell := Put(layer.cell, Index(w - 1, y), Dirt);
      }
      y := y + 1;
    }
  }

  /**
    The tile an Unknown cell becomes, from its left and right neighbours:
    the smallest-valued neighbour that is not dirt, or Empty when both are dirt.
  */
  function Resolve(left: BaseTile, right: BaseTile): (t: BaseTile)
    ensures t != Dirt
    ensures left == Dirt && right == Dirt ==> t == Empty
    ensures !(left == Dirt && right == Dirt) ==> (t == left && left != Dirt) || (t == right && right != Dirt)
    ensures left != Dirt ==> Value(t) <= Value(left)
    ensures right != Dirt ==> Value(t) <= Value(right)
  {
    if left == Dirt && right == Dirt then Empty
    else if left == Dirt then right
    else if right == Dirt || Value(left) <= Value(right) then left
    else right
  }

  /**
    The tile at (x, y) once the row-major sweep of FillInUnknownTiles, which
    starts each row at column minX, has visited it. The left neighbour has
    been visited already (unless it lies left of the sweep); the right one has not.
  */
  function Swept(g: Grid<BaseTile>, minX: int, x: int, y: int): (t: BaseTile)
    requires minX <= x
    decreases x - minX
    ensures g(Index(x, y)) != Unknown ==> t == g(Index(x, y))
    ensures t == Dirt <==> g(Index(x, y)) == Dirt
  {
    var here := g(Index(x, y));
    if here != Unknown then here
    else
      var left := if x == minX then g(Index(x - 1, y)) else Swept(g, minX, x - 1, y);
      Resolve(left, g(Index(x + 1, y)))
  }

  /** Whether the row-major sweep of `b` has passed `q` when it is at column b.x+i of row b.y+j. */
  predicate Passed(b: Box, q: Index, j: int, i: int) {
    InBox(Box(b.x, b.y, b.w, j), q) || InBox(Box(b.x, b.y + j, i, 1), q)
  }

  /** The content of the extent `b` when the sweep has passed exactly the cells Passed(b, _, j, i). */
  function SweptSoFar(g: Grid<BaseTile>, b: Box, j: int, i: int, q: Index): BaseTile {
    if Passed(b, q, j, i) then Swept(g, b.x, q.x, q.y) else g(q)
  }

  /** The value the sweep stores at `q`, reading `q` and its neighbours from `c`. */
  function Visit(c: Grid<BaseTile>, q: Index): BaseTile {
    if c(q) == Unknown then Resolve(c(Index(q.x - 1, q.y)), c(Index(q.x + 1, q.y))) else c(q)
  }

  /**
    One step of the sweep: the cell at column b.x+i of row b.y+j, read with its
    left and right neighbours from the content so far, is resolved if Unknown.
  */
  lemma SweepStep(g: Grid<BaseTile>, b: Box, j: int, i: int, before: Grid<BaseTile>, after: Grid<BaseTile>)
    requires 0 <= i < b.w && 0 <= j < b.h
    requires forall k :: before(k) == SweptSoFar(g, b, j, i, k)
    requires after(Index(b.x + i, b.y + j)) == Visit(before, Index(b.x + i, b.y + j))
    requires forall k :: k != Index(b.x + i, b.y + j) ==> after(k) == before(k)
    ensures forall k :: after(k) == SweptSoFar(g, b, j, i + 1, k)
  {
    var q := Index(b.x + i, b.y + j);
    assert before(q) == SweptSoFar(g, b, j, i, q);
    assert before(Index(q.x + 1, q.y)) == SweptSoFar(g, b, j, i, Index(q.x + 1, q.y));
    assert before(Index(q.x - 1, q.y)) == SweptSoFar(g, b, j, i, Index(q.x - 1, q.y));
    assert after(q) == Swept(g, b.x, q.x, q.y);
  }

  /** A finished row is the same as the start of the next one. */
  lemma SweepNextRow(g: Grid<BaseTile>, b: Box, j: int)
    requires 0 <= b.w && 0 <= j
    ensures forall k :: SweptSoFar(g, b, j, b.w, k) == SweptSoFar(g, b, j + 1, 0, k)
  {
  }

  /** Resolves every Unknown cell of the extent in one row-major sweep. */
  method FillInUnknownTiles(layer: TileLayer<BaseTile>)
    modifies layer
    ensures layer.Extent() == old(layer.Extent())
    ensures forall q :: layer.cell(q) == SweptSoFar(old(layer.cell), layer.Extent(), layer.h, 0, q)
  {
    ghost var g := layer.cell;
    var b := layer.Extent();
    var j := 0;
    while j < b.h
      invariant layer.Extent() == b
      invariant 0 <= j <= b.h
      invariant forall q :: layer.cell(q) == SweptSoFar(g, b, j, 0, q)
    {
      var i := 0;
      while i < b.w
        invariant layer.Extent() == b
        invariant 0 <= i <= b.w
        invariant forall q :: layer.cell(q) == SweptSoFar(g, b, j, i, q)
      {
        var q := Index(b.x + i, b.y + j);
        ghost var before := layer.cell;
        var tile := layer.GetTile(q);
        if tile == Unknown {
          var left := layer.GetTile(Index(q.x - 1, q.y));
          var right := layer.GetTile(Index(q.x + 1, q.y));
          layer.SetTile(q, Resolve(left, right));
        }
        SweepStep(g, b, j, i, before, layer.cell);
        i := i + 1;
      }
      SweepNextRow(g, b, j);
      j := j + 1;
    }
  }

  /** An Unknown cell with dirt on its left and Unknown on its right stays Unknown. */
  lemma UnknownAfterDirtStaysUnknown(g: Grid<BaseTile>, minX: int, x: int, y: int)
    requires minX < x
    requires g(Index(x - 1, y)) == Dirt && g(Index(x, y)) == Unknown && g(Index(x + 1, y)) == Unknown
    ensures Swept(g, minX, x, y) == Unknown
  {
  }

  /**
    The sweep reads the left neighbour after it has been resolved: in the row
    Cave, Unknown, Unknown, Dirt the second Unknown becomes Cave, although
    resolving it from the row as it was (Unknown on its left) leaves it Unknown.
  */
  lemma SweepReadsResolvedLeft()
    ensures var g: Grid<BaseTile> := q =>
              if q == Index(0, 0) then Cave
              else if q == Index(1, 0) || q == Index(2, 0) then Unknown
              else Dirt;
            Swept(g, 0, 2, 0) == Cave && Resolve(g(Index(1, 0)), g(Index(3, 0))) == Unknown
  {
  }

  /** The tile an explosion leaves: dirt is hollowed into a cave, anything else stays. */
  function Exploded(t: BaseTile): (r: BaseTile)
    ensures r != Dirt
    ensures t == Dirt ==> r == Cave
    ensures t != Dirt ==> r == t
  {
    if t == Dirt then Cave else t
  }

  /** The base content after an explosion at `q`. */
  function ExplodeCell(g: Grid<BaseTile>, q: Index): (r: Grid<BaseTile>)
    ensures r(q) != Dirt
    ensures g(q) == Dirt ==> r(q) == Cave
    ensures g(q) != Dirt ==> r(q) == g(q)
    ensures forall k :: k != q ==> r(k) == g(k)
  {
    Put(g, q, Exploded(g(q)))
  }

  /** Exploding the same cell twice leaves the same content as exploding it once. */
  lemma ExplodeCellIdempotent(g: Grid<BaseTile>, q: Index)
    ensures forall k :: ExplodeCell(ExplodeCell(g, q), q)(k) == ExplodeCell(g, q)(k)
  {
  }

  /** Turns the dirt cell at world point `p` into a cave; any other tile is left alone. */
  method ExplodeAtCoord(layer: TileLayer<BaseTile>, p: Point)
    modifies layer
    ensures forall k :: layer.cell(k) == ExplodeCell(old(layer.cell), CellOfCoord(p))(k)
    ensures old(layer.cell(CellOfCoord(p))) == Dirt ==> Grows(old(layer.Extent()), layer.Extent(), CellOfCoord(p))
    ensures old(layer.cell(CellOfCoord(p))) != Dirt ==> layer.Extent() == old(layer.Extent())
  {
    var tile := layer.GetTileAtCoord(p);
    if tile == Dirt {
      layer.SetTileAtCoord(p, Cave);
    }
  }
}
