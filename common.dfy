/**
  Shared vocabulary of the simulation: tile indices, world points, grids of
  tiles seen as total maps, directions and the corners an entity samples.
*/
module Common {

  datatype Option<T> = None | Some(value: T)

  /** A tile index: a column and a row of the tile grid. */
  datatype Index = Index(x: int, y: int)

  /** A point in world (physics) units. */
  datatype Point = Point(x: real, y: real)

  /** The content of a tile layer, as a total map from tile indices to tiles. */
  type Grid<T> = Index -> T

  /** The grid that agrees with `g` everywhere except at `q`, where it holds `v`. */
  function Put<T>(g: Grid<T>, q: Index, v: T): (r: Grid<T>)
    ensures r(q) == v
    ensures forall k :: k != q ==> r(k) == g(k)
  {
    k => if k == q then v else g(k)
  }

  datatype Dir = Left | Right | Up | Down

  datatype FacingDir = FacingLeft | FacingRight

  /** A corner of a rectangle: on its right (else left) side, on its bottom (else top) side. */
  datatype Corner = Corner(right: bool, bottom: bool)

  /**
    The corners sampled by a tile query: all four without a direction,
    otherwise the two on the side facing the direction.
  */
  function CornersInDirection(dir: Option<Dir>): (cs: seq<Corner>)
    ensures dir == None ==> |cs| == 4 && forall right, bottom :: Corner(right, bottom) in cs
    ensures dir != None ==> |cs| == 2
    ensures dir == Some(Left) ==> forall c :: c in cs <==> !c.right
    ensures dir == Some(Right) ==> forall c :: c in cs <==> c.right
    ensures dir == Some(Up) ==> forall c :: c in cs <==> !c.bottom
    ensures dir == Some(Down) ==> forall c :: c in cs <==> c.bottom
  {
    match dir
    case None =>
      [Corner(false, false), Corner(true, false), Corner(false, true), Corner(true, true)]
    case Some(Left) => [Corner(false, false), Corner(false, true)]
    case Some(Right) => [Corner(true, false), Corner(true, true)]
    case Some(Up) => [Corner(false, false), Corner(true, false)]
    case Some(Down) => [Corner(false, true), Corner(true, true)]
  }
}
