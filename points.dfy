/** `getPoints`: the quantised 40x25 image read row by row, top to bottom and left to right,
    into the sequence of 1000 palette indices the listing carries. */
module Points {
  import opened Colors
  import opened Seqs

  const ImgWidth: nat := 40
  const ImgHeight: nat := 25

  /** The quantised image (`image.Paletted`): each pixel holds a palette index, `grid[y][x]`
      for the pixel at column `x` of row `y`. */
  type Grid = seq<seq<PaletteIndex>>

  /** The image has the size the program accepts: 25 rows of 40 pixels. */
  predicate WellFormed(g: Grid)
  {
    |g| == ImgHeight && forall y :: 0 <= y < |g| ==> |g[y]| == ImgWidth
  }

  /** `Paletted.At(x, y)`: the palette colour of the pixel, or palette entry 0 outside the image. */
  function At(g: Grid, x: int, y: int): (c: Rgba)
    ensures c in Palette
  {
    if 0 <= y < |g| && 0 <= x < |g[y]| then Palette[g[y][x]] else Palette[0]
  }

  /** The screen offset of pixel `(x, y)`: the header's `o = 40 * y + x`. */
  function Offset(x: int, y: int): int
  {
    ImgWidth * y + x
  }

  /** What `getPoints` returns: position `Offset(x, y)` holds the lookup of pixel `(x, y)`. */
  function PointsOf(g: Grid): (p: seq<int>)
    ensures |p| == ImgWidth * ImgHeight
    ensures forall y, x :: 0 <= y < ImgHeight && 0 <= x < ImgWidth ==>
      p[Offset(x, y)] == ColorCode(At(g, x, y))
  {
    var p := seq(ImgWidth * ImgHeight, i requires 0 <= i < ImgWidth * ImgHeight =>
      ColorCode(At(g, i % ImgWidth, i / ImgWidth)));
    assert forall y, x :: 0 <= y < ImgHeight && 0 <= x < ImgWidth ==>
      0 <= Offset(x, y) < ImgWidth * ImgHeight &&
      Offset(x, y) % ImgWidth == x && Offset(x, y) / ImgWidth == y;
    p
  }

  /** `getPoints`: the nested `y`/`x` loops append one lookup per pixel. */
  method GetPoints(g: Grid) returns (points: seq<int>)
    ensures points == PointsOf(g)
  {
    points := [];
    var y := 0;
    while y < ImgHeight
      invariant 0 <= y <= ImgHeight
      invariant points == Scanned(g, Offset(0, y))
    {
      var x := 0;
      while x < ImgWidth
        invariant 0 <= x <= ImgWidth
        invariant points == Scanned(g, Offset(x, y))
      {
        var code := DetectPixelColorCode(At(g, x, y));
        ScanStep(g, x, y);
        points := points + [code];
        x := x + 1;
      }
      y := y + 1;
    }
    ScanEnd(g);
  }

  /** The points of the first `n` pixels in scanning order. */
  ghost function Scanned(g: Grid, n: nat): seq<int>
    requires n <= ImgWidth * ImgHeight
  {
    PointsOf(g)[..n]
  }

  /** Scanning pixel `(x, y)` appends its lookup. */
  lemma ScanStep(g: Grid, x: int, y: int)
    requires 0 <= x < ImgWidth && 0 <= y < ImgHeight
    ensures Scanned(g, Offset(x, y) + 1) == Scanned(g, Offset(x, y)) + [ColorCode(At(g, x, y))]
  {
    PrefixSnoc(PointsOf(g), Offset(x, y));
  }

  /** Once every pixel is scanned the points are complete. */
  lemma ScanEnd(g: Grid)
    ensures Scanned(g, ImgWidth * ImgHeight) == PointsOf(g)
  {
  }

  /** The image's palette indices, rows laid end to end. */
  function Flatten(g: Grid): seq<int>
  {
    Concat(g)
  }

  /** For an image of the accepted size the points are exactly its palette indices in
      row-major order: the lookup recovers every index the quantiser stored. */
  lemma PointsOfWellFormed(g: Grid)
    requires WellFormed(g)
    ensures PointsOf(g) == Flatten(g)
  {
    ConcatUniformLength(g, ImgWidth);
    forall i | 0 <= i < ImgWidth * ImgHeight ensures PointsOf(g)[i] == Flatten(g)[i] {
      PointOfWellFormed(g, i);
    }
  }

  /** Entry `i` of the points is entry `i` of the flattened image. */
  lemma PointOfWellFormed(g: Grid, i: int)
    requires WellFormed(g)
    requires 0 <= i < ImgWidth * ImgHeight
    ensures i < |Flatten(g)| && PointsOf(g)[i] == Flatten(g)[i]
  {
    var y, x := i / ImgWidth, i % ImgWidth;
    assert i == Offset(x, y);
    PointsAt(g, x, y);
    FlattenAt(g, x, y);
  }

  /** Entry `40 * y + x` of the flattened image is pixel `(x, y)`. */
  lemma FlattenAt(g: Grid, x: nat, y: nat)
    requires WellFormed(g)
    requires x < ImgWidth && y < ImgHeight
    ensures Offset(x, y) < |Flatten(g)| && Flatten(g)[Offset(x, y)] == g[y][x]
  {
    ConcatUniformAt(g, ImgWidth, y, x);
  }

  /** Cell by cell for an image of the accepted size: entry `40 * y + x` is the index of pixel `(x, y)`. */
  lemma PointsAt(g: Grid, x: int, y: int)
    requires WellFormed(g)
    requires 0 <= x < ImgWidth && 0 <= y < ImgHeight
    ensures PointsOf(g)[Offset(x, y)] == g[y][x]
  {
    assert At(g, x, y) == Palette[g[y][x]];
    ColorCodeOfEntry(g[y][x]);
  }
}
