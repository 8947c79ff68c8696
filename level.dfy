/**
  A level of the earlier game: a single-layer tile grid decoded from the
  pixels of an image, the start point marked in it, the player's seed placed
  there, and the per-frame update of the level's entities.
*/
module GameLevel {
  import opened Common
  import opened Layers
  import opened LegacyTiles
  import B = Bodies
  import S = Seeds
  import LS = LegacySeed

  /** One channel of a pixel, as the image data stores it. */
  type Byte = b: int | 0 <= b < 256

  /** The lower-case hex digit for 0 <= n < 16. */
  function Digit(n: int): (c: char)
    requires 0 <= n < 16
    ensures '0' <= c <= '9' || 'a' <= c <= 'f'
  {
    if n < 10 then ('0' as int + n) as char else ('a' as int + n - 10) as char
  }

  /** The value of a lower-case hex digit; -1 for any other character. */
  function DigitValue(c: char): int {
    if '0' <= c <= '9' then c as int - '0' as int
    else if 'a' <= c <= 'f' then c as int - 'a' as int + 10
    else -1
  }

  lemma DigitRoundTrip(n: int)
    requires 0 <= n < 16
    ensures DigitValue(Digit(n)) == n
  {
  }

  /** A natural number in base 16 with lower-case digits and no leading zeros, as JavaScript's toString(16) writes it. */
  function ToHex(n: nat): (s: string)
    ensures 1 <= |s|
    ensures n < 16 ==> |s| == 1
    ensures n < 256 ==> |s| <= 2
    decreases n
  {
    if n < 16 then [Digit(n)] else ToHex(n / 16) + [Digit(n % 16)]
  }

  /** `s` preceded by enough copies of `c` to be `len` long, as JavaScript's padStart does. */
  function PadStart(s: string, len: nat, c: char): (r: string)
    ensures |r| == if |s| >= len then |s| else len
    ensures r[|r| - |s|..] == s
    ensures forall i :: 0 <= i < |r| - |s| ==> r[i] == c
  {
    if |s| >= len then s else seq(len - |s|, _ => c) + s
  }

  /** A byte as two lower-case hex digits, high digit first. */
  function Hex2(b: Byte): (s: string)
    ensures |s| == 2
  {
    [Digit(b / 16), Digit(b % 16)]
  }

  /** Two hex digits read back as a number. */
  function ParseHex2(s: string): int
    requires |s| == 2
  {
    DigitValue(s[0]) * 16 + DigitValue(s[1])
  }

  /** The two digits of a byte are its toString(16) padded to length 2 with zeros. */
  lemma Hex2IsPaddedHex(b: Byte)
    ensures Hex2(b) == PadStart(ToHex(b), 2, '0')
  {
    if b >= 16 {
      assert ToHex(b) == [Digit(b / 16)] + [Digit(b % 16)];
    } else {
      assert ToHex(b) == [Digit(b)];
      assert PadStart(ToHex(b), 2, '0') == ['0'] + [Digit(b)];
    }
  }

  /** Reading back the two digits of a byte gives the byte. */
  lemma Hex2RoundTrip(b: Byte)
    ensures ParseHex2(Hex2(b)) == b
  {
    DigitRoundTrip(b / 16);
    DigitRoundTrip(b % 16);
  }

  /** Distinct bytes are written differently. */
  lemma Hex2Injective(b1: Byte, b2: Byte)
    requires Hex2(b1) == Hex2(b2)
    ensures b1 == b2
  {
    Hex2RoundTrip(b1);
    Hex2RoundTrip(b2);
  }

  /** The first of the four bytes of pixel (x, y) in the data of an image `width` pixels wide. */
  function PixelIndex(width: int, x: int, y: int): int {
    (y * width + x) * 4
  }

  /** Whether `data` holds the bytes of a width x height image, four per pixel. */
  predicate IsImage(data: seq<Byte>, width: nat, height: nat) {
    |data| == 4 * width * height
  }

  /** Every pixel of the image has its four bytes in the data. */
  lemma PixelInImage(data: seq<Byte>, width: nat, height: nat, x: int, y: int)
    requires IsImage(data, width, height) && 0 <= x < width && 0 <= y < height
    ensures 0 <= PixelIndex(width, x, y) && PixelIndex(width, x, y) + 3 < |data|
  {
    assert y * width + width == (y + 1) * width;
    assert (y + 1) * width <= height * width;
  }

  /** The colour of pixel (x, y) as six hex digits: red, green, blue. */
  function PixelToColorString(data: seq<Byte>, width: int, x: int, y: int): (s: string)
    requires 0 <= PixelIndex(width, x, y) && PixelIndex(width, x, y) + 2 < |data|
    ensures |s| == 6
  {
    var i := PixelIndex(width, x, y);
    Hex2(data[i]) + Hex2(data[i + 1]) + Hex2(data[i + 2])
  }

  /** The colour string holds the three channels of the pixel, which can be read back from it. */
  lemma ColorStringRoundTrip(data: seq<Byte>, width: int, x: int, y: int)
    requires 0 <= PixelIndex(width, x, y) && PixelIndex(width, x, y) + 2 < |data|
    ensures var s, i := PixelToColorString(data, width, x, y), PixelIndex(width, x, y);
            ParseHex2(s[0..2]) == data[i] && ParseHex2(s[2..4]) == data[i + 1] && ParseHex2(s[4..6]) == data[i + 2]
  {
    var i := PixelIndex(width, x, y);
    var s := PixelToColorString(data, width, x, y);
    Hex2RoundTrip(data[i]);
    Hex2RoundTrip(data[i + 1]);
    Hex2RoundTrip(data[i + 2]);
    assert s[0..2] == Hex2(data[i]);
    assert s[2..4] == Hex2(data[i + 1]);
    assert s[4..6] == Hex2(data[i + 2]);
  }

  /** Whether pixel (x, y) has the channels r, g, b. */
  predicate HasColor(data: seq<Byte>, width: int, x: int, y: int, r: Byte, g: Byte, b: Byte)
    requires 0 <= PixelIndex(width, x, y) && PixelIndex(width, x, y) + 2 < |data|
  {
    var i := PixelIndex(width, x, y);
    data[i] == r && data[i + 1] == g && data[i + 2] == b
  }

  /** Three two-digit strings are read back from their concatenation. */
  lemma Split3(a1: string, a2: string, a3: string, b1: string, b2: string, b3: string)
    requires |a1| == |a2| == |a3| == |b1| == |b2| == |b3| == 2
    requires a1 + a2 + a3 == b1 + b2 + b3
    ensures a1 == b1 && a2 == b2 && a3 == b3
  {
    assert a1 == (a1 + a2 + a3)[0..2] && b1 == (b1 + b2 + b3)[0..2];
    assert a2 == (a1 + a2 + a3)[2..4] && b2 == (b1 + b2 + b3)[2..4];
    assert a3 == (a1 + a2 + a3)[4..6] && b3 == (b1 + b2 + b3)[4..6];
  }

  /** A pixel's colour string is that of the channels r, g, b exactly when the pixel has those channels. */
  lemma ColorStringIff(data: seq<Byte>, width: int, x: int, y: int, r: Byte, g: Byte, b: Byte)
    requires 0 <= PixelIndex(width, x, y) && PixelIndex(width, x, y) + 2 < |data|
    ensures PixelToColorString(data, width, x, y) == Hex2(r) + Hex2(g) + Hex2(b) <==> HasColor(data, width, x, y, r, g, b)
  {
    var i := PixelIndex(width, x, y);
    if PixelToColorString(data, width, x, y) == Hex2(r) + Hex2(g) + Hex2(b) {
      Split3(Hex2(data[i]), Hex2(data[i + 1]), Hex2(data[i + 2]), Hex2(r), Hex2(g), Hex2(b));
      Hex2Injective(data[i], r);
      Hex2Injective(data[i + 1], g);
      Hex2Injective(data[i + 2], b);
    }
  }

  /** The three colours the level format names are exactly white, black and pure red. */
  lemma ColorNames(data: seq<Byte>, width: int, x: int, y: int)
    requires 0 <= PixelIndex(width, x, y) && PixelIndex(width, x, y) + 2 < |data|
    ensures PixelToColorString(data, width, x, y) == "ffffff" <==> HasColor(data, width, x, y, 255, 255, 255)
    ensures PixelToColorString(data, width, x, y) == "000000" <==> HasColor(data, width, x, y, 0, 0, 0)
    ensures PixelToColorString(data, width, x, y) == "ff0000" <==> HasColor(data, width, x, y, 255, 0, 0)
  {
    assert Hex2(255) + Hex2(255) + Hex2(255) == "ffffff";
    assert Hex2(0) + Hex2(0) + Hex2(0) == "000000";
    assert Hex2(255) + Hex2(0) + Hex2(0) == "ff0000";
    ColorStringIff(data, width, x, y, 255, 255, 255);
    ColorStringIff(data, width, x, y, 0, 0, 0);
    ColorStringIff(data, width, x, y, 255, 0, 0);
  }

  /**
    The tile decoding leaves at cell `q` of the image: black is a wall;
    white is written as empty, and red and unknown colours keep the new
    grid's empty cell.
  */
  function DecodedTile(data: seq<Byte>, width: nat, height: nat, q: Index): (t: Tile)
    requires IsImage(data, width, height) && InRange(width, height, q)
    ensures PixelIndex(width, q.x, q.y) + 2 < |data|
    ensures t == Wall <==> PixelToColorString(data, width, q.x, q.y) == "000000"
  {
    PixelInImage(data, width, height, q.x, q.y);
    ColorNames(data, width, q.x, q.y);
    if HasColor(data, width, q.x, q.y, 0, 0, 0) then Wall else Empty
  }

  /** Whether pixel `q` of the image is pure red, the mark of the start. */
  predicate IsRed(data: seq<Byte>, width: nat, height: nat, q: Index)
    requires IsImage(data, width, height) && InRange(width, height, q)
  {
    PixelInImage(data, width, height, q.x, q.y);
    HasColor(data, width, q.x, q.y, 255, 0, 0)
  }

  /** Whether the pixel-by-pixel, row-by-row scan reaches `q` before column x of row y. */
  predicate Before(q: Index, y: int, x: int) {
    q.y < y || (q.y == y && q.x < x)
  }

  /** The last red pixel that the row-by-row scan meets before column x of row y, if any. */
  function LastRedBefore(data: seq<Byte>, width: nat, height: nat, y: nat, x: nat): Option<Index>
    requires IsImage(data, width, height) && y <= height && x <= width && (y == height ==> x == 0)
    decreases y, x
  {
    if x > 0 then
      if IsRed(data, width, height, Index(x - 1, y)) then Some(Index(x - 1, y))
      else LastRedBefore(data, width, height, y, x - 1)
    else if y > 0 then LastRedBefore(data, width, height, y - 1, width)
    else None
  }

  /** The tile the level starts at: the last red pixel in reading order, or (0, 0) when there is none. */
  function StartTile(data: seq<Byte>, width: nat, height: nat): Index
    requires IsImage(data, width, height)
  {
    StartSoFar(data, width, height, height, 0)
  }

  /**
    The scan before column x of row y finds a red pixel that no later
    scanned pixel follows with red, or finds none when there is none.
  */
  lemma {:induction false} LastRedBeforeIsLast(data: seq<Byte>, width: nat, height: nat, y: nat, x: nat)
    requires IsImage(data, width, height) && y <= height && x <= width && (y == height ==> x == 0)
    ensures var r := LastRedBefore(data, width, height, y, x);
            && (r.Some? ==> InRange(width, height, r.value) && Before(r.value, y, x) && IsRed(data, width, height, r.value)
                            && forall q :: InRange(width, height, q) && Before(q, y, x) && !Before(q, r.value.y, r.value.x + 1) ==> !IsRed(data, width, height, q))
            && (r.None? ==> forall q :: InRange(width, height, q) && Before(q, y, x) ==> !IsRed(data, width, height, q))
    decreases y, x
  {
    if x > 0 {
      if !IsRed(data, width, height, Index(x - 1, y)) {
        LastRedBeforeIsLast(data, width, height, y, x - 1);
      }
    } else if y > 0 {
      LastRedBeforeIsLast(data, width, height, y - 1, width);
    }
  }

  /** The start tile is the last red pixel of the image in reading order; with no red pixel it is (0, 0). */
  lemma StartTileIsLastRed(data: seq<Byte>, width: nat, height: nat)
    requires IsImage(data, width, height)
    ensures var s := StartTile(data, width, height);
            || (InRange(width, height, s) && IsRed(data, width, height, s)
                && forall q :: InRange(width, height, q) && !Before(q, s.y, s.x + 1) ==> !IsRed(data, width, height, q))
            || (s == Index(0, 0) && forall q :: InRange(width, height, q) ==> !IsRed(data, width, height, q))
  {
    LastRedBeforeIsLast(data, width, height, height, 0);
  }

  /** The grid after the decoding loop has visited the pixels before column x of row y. */
  function DecodedSoFar(data: seq<Byte>, width: nat, height: nat, y: int, x: int, q: Index): Tile
    requires IsImage(data, width, height) && InRange(width, height, q)
  {
    if Before(q, y, x) then DecodedTile(data, width, height, q) else Empty
  }

  /** The start tile once the scan has visited the pixels before column x of row y. */
  function StartSoFar(data: seq<Byte>, width: nat, height: nat, y: nat, x: nat): Index
    requires IsImage(data, width, height) && y <= height && x <= width && (y == height ==> x == 0)
  {
    match LastRedBefore(data, width, height, y, x)
    case Some(q) => q
    case None => Index(0, 0)
  }

  /** Whether `t` is a width x height grid decoded up to column x of row y. */
  ghost predicate DecodedUpTo(t: Tiles, data: seq<Byte>, width: nat, height: nat, y: int, x: int)
    requires IsImage(data, width, height)
    reads t
  {
    && t.Valid() && t.w == width && t.h == height
    && forall q :: InRange(width, height, q) ==> t.GetTile(q) == DecodedSoFar(data, width, height, y, x, q)
  }

  /** Decodes pixel (x, y) into `t`: white is stored as empty, black as a wall, and red becomes the start tile. */
  method DecodePixel(t: Tiles, data: seq<Byte>, width: nat, height: nat, y: nat, x: nat, startTile: Index) returns (next: Index)
    requires IsImage(data, width, height) && x < width && y < height
    requires DecodedUpTo(t, data, width, height, y, x)
    requires startTile == StartSoFar(data, width, height, y, x)
    modifies t
    ensures DecodedUpTo(t, data, width, height, y, x + 1)
    ensures next == StartSoFar(data, width, height, y, x + 1)
  {
    PixelInImage(data, width, height, x, y);
    var color := PixelToColorString(data, width, x, y);
    ColorNames(data, width, x, y);
    var p := Index(x, y);
    ghost var before := t.Grid();
    next := startTile;
    if color == "ffffff" {
      t.SetTile(p, Empty);
    } else if color == "000000" {
      t.SetTile(p, Wall);
    } else if color == "ff0000" {
      next := p;
    }
    assert t.GetTile(p) == DecodedTile(data, width, height, p);
    assert forall q :: q != p ==> t.GetTile(q) == before(q);
    DecodedStep(data, width, height, y, x);
  }

  /** Visiting pixel (x, y) decodes that cell and leaves the others as they were. */
  lemma DecodedStep(data: seq<Byte>, width: nat, height: nat, y: nat, x: nat)
    requires IsImage(data, width, height) && x < width && y < height
    ensures forall q :: InRange(width, height, q) ==>
              DecodedSoFar(data, width, height, y, x + 1, q)
                == if q == Index(x, y) then DecodedTile(data, width, height, q) else DecodedSoFar(data, width, height, y, x, q)
  {
  }

  /** Decodes row y of the image into `t`. */
  method DecodeRow(t: Tiles, data: seq<Byte>, width: nat, height: nat, y: nat, startTile: Index) returns (next: Index)
    requires IsImage(data, width, height) && y < height
    requires DecodedUpTo(t, data, width, height, y, 0)
    requires startTile == StartSoFar(data, width, height, y, 0)
    modifies t
    ensures DecodedUpTo(t, data, width, height, y + 1, 0)
    ensures next == StartSoFar(data, width, height, y + 1, 0)
  {
    next := startTile;
    var x := 0;
    while x < width
      invariant 0 <= x <= width
      invariant DecodedUpTo(t, data, width, height, y, x)
      invariant next == StartSoFar(data, width, height, y, x)
    {
      next := DecodePixel(t, data, width, height, y, x, next);
      x := x + 1;
    }
    assert forall q :: Before(q, y, width) && InRange(width, height, q) <==> Before(q, y + 1, 0) && InRange(width, height, q);
  }

  /** Decodes every pixel of a width x height image, row by row, into a new grid, and finds the start tile. */
  method DecodeImage(width: nat, height: nat, data: seq<Byte>) returns (t: Tiles, startTile: Index)
    requires IsImage(data, width, height)
    ensures fresh(t) && t.Valid() && t.w == width && t.h == height
    ensures forall q :: InRange(width, height, q) ==> t.GetTile(q) == DecodedTile(data, width, height, q)
    ensures startTile == StartTile(data, width, height)
  {
    t := new Tiles(width, height);
    startTile := Index(0, 0);
    var y := 0;
    while y < height
      invariant 0 <= y <= height
      invariant DecodedUpTo(t, data, width, height, y, 0)
      invariant startTile == StartSoFar(data, width, height, y, 0)
    {
      startTile := DecodeRow(t, data, width, height, y, startTile);
      y := y + 1;
    }
  }

  /** A new seed standing with the middle of its feet at `p`. */
  method SpawnSeed(p: Point) returns (seed: LS.Seed)
    ensures fresh(seed) && fresh(seed.body)
    ensures seed.body.State() == B.WithMaxY(B.WithMidX(LS.NewSeedBody(), p.x), p.y)
  {
    seed := new LS.Seed();
    seed.body.SetMidX(p.x);
    seed.body.SetMaxY(p.y);
  }

  class Level {
    var entities: seq<LS.Seed>
    var tiles: Tiles
    var start: Point

    /** An empty level: no entities, a 0 x 0 grid, the start at the origin. */
    constructor()
      ensures entities == [] && start == Point(0.0, 0.0)
      ensures fresh(tiles) && tiles.Valid() && tiles.w == 0 && tiles.h == 0
    {
      entities := [];
      tiles := new Tiles(0, 0);
      start := Point(0.0, 0.0);
    }

    /**
      Builds the level from a width x height image: the tiles from the pixel
      colours, the start from the red mark, and a single new seed standing
      there with its bottom centre at the start point.
    */
    method InitFromImage(width: nat, height: nat, data: seq<Byte>)
      requires IsImage(data, width, height)
      modifies this
      ensures fresh(tiles) && tiles.Valid() && tiles.w == width && tiles.h == height
      ensures forall q :: InRange(width, height, q) ==> tiles.GetTile(q) == DecodedTile(data, width, height, q)
      ensures start == TileCoord(StartTile(data, width, height), Point(0.5, 1.0))
      ensures |entities| == 1 && fresh(entities[0]) && fresh(entities[0].body)
      ensures entities[0].body.State() == B.WithMaxY(B.WithMidX(LS.NewSeedBody(), start.x), start.y)
    {
      entities := [];
      var startTile;
      tiles, startTile := DecodeImage(width, height, data);
      // The start tile always exists, so the start point is always set.
      start := TileCoord(startTile, Point(0.5, 1.0));
      var seed := SpawnSeed(start);
      entities := entities + [seed];
    }

    /** Runs one tick of every entity, in list order, with the keys of this frame. */
    method Update(keys: S.Keys, dt: real)
      requires forall i, j :: 0 <= i < j < |entities| ==> entities[i].body != entities[j].body
      modifies set i | 0 <= i < |entities| :: entities[i].body
      ensures forall i :: 0 <= i < |entities| ==>
                entities[i].body.State() == LS.Step(old(entities[i].body.State()), entities[i].runSpeed, entities[i].jumpSpeed, tiles.Grid(), keys, dt)
    {
      var grid := tiles.Grid();
      var n := 0;
      while n < |entities|
        invariant 0 <= n <= |entities|
        invariant forall i :: 0 <= i < n ==>
                    entities[i].body.State() == LS.Step(old(entities[i].body.State()), entities[i].runSpeed, entities[i].jumpSpeed, grid, keys, dt)
        invariant forall i :: n <= i < |entities| ==> entities[i].body.State() == old(entities[i].body.State())
      {
        entities[n].Update(grid, keys, dt);
        n := n + 1;
      }
    }
  }
}
