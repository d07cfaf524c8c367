/** `main` from the size check on: an image whose decoded size is not 40x25 is refused with a
    message and nothing is written; otherwise the quantised image is read into points and the
    BASIC listing of those points is what goes into the export file. */
module Converter {
  import opened Colors
  import opened Text
  import opened Points
  import opened Basic
  import opened Listing

  /** What a run ends with: refused with a message, or the text of the export file. */
  datatype Run = Rejected(message: string) | Written(listing: string)

  /** The message printed for an image of the wrong size. */
  function SizeMessage(width: int, height: int): string
  {
    "Wrong image size. Expected " + IntToDecimal(ImgWidth) + "x" + IntToDecimal(ImgHeight) +
    ", got: " + IntToDecimal(width) + "x" + IntToDecimal(height) + "\n"
  }

  /** The part of the message that does not depend on the image. */
  function ExpectedSize(): string
  {
    "Wrong image size. Expected " + IntToDecimal(ImgWidth) + "x" + IntToDecimal(ImgHeight) + ", got: "
  }

  /** `main` after decoding the image's configuration (`width`, `height`) and quantising its
      pixels (`g`): the size is checked before anything is computed or written; a run that is
      not refused writes the listing of the image's points. */
  method Convert(width: int, height: int, g: Grid) returns (r: Run)
    ensures r.Rejected? <==> (width != ImgWidth || height != ImgHeight)
    ensures r.Rejected? ==> r.message == SizeMessage(width, height)
    ensures r.Written? ==> r.listing == ListingText(PointsOf(g))
  {
    if width != ImgWidth || height != ImgHeight {
      return Rejected(SizeMessage(width, height));
    }
    var points := GetPoints(g);
    var text := WriteImageCode(points);
    return Written(text);
  }

  /** The message names the expected and the actual size, and it tells any two sizes apart. */
  lemma SizeMessageNamesSize(width: int, height: int, width': int, height': int)
    ensures SizeMessage(width, height) == SizeMessage(width', height') <==>
      (width == width' && height == height')
  {
    var w, h := IntToDecimal(width), IntToDecimal(height);
    var w', h' := IntToDecimal(width'), IntToDecimal(height');
    var tail, tail' := w + "x" + (h + "\n"), w' + "x" + (h' + "\n");
    SizeMessageParts(width, height);
    SizeMessageParts(width', height');
    if SizeMessage(width, height) == SizeMessage(width', height') {
      var p := ExpectedSize();
      assert tail == (p + tail)[|p|..] == (p + tail')[|p|..] == tail';
      DecimalBeforeSeparator(w, h + "\n", w', h' + "\n");
      assert h == (h + "\n")[..|h|] == (h' + "\n")[..|h'|] == h';
      IntDecimalInjective(width, width');
      IntDecimalInjective(height, height');
    }
  }

  /** The message is the fixed prefix, then the width, `x` and the height. */
  lemma SizeMessageParts(width: int, height: int)
    ensures SizeMessage(width, height) == ExpectedSize() + (IntToDecimal(width) + "x" + (IntToDecimal(height) + "\n"))
  {
  }

  /** The fixed part of the message, with the expected size filled in. */
  lemma ExpectedSizeText()
    ensures ExpectedSize() == "Wrong image size. Expected 40x25, got: "
  {
  }

  /** The message as `Printf` formats it: the expected size 40x25, then the actual width and
      height. */
  lemma SizeMessageText(width: int, height: int)
    ensures SizeMessage(width, height) ==
      "Wrong image size. Expected 40x25, got: " + IntToDecimal(width) + "x" + IntToDecimal(height) + "\n"
  {
    SizeMessageParts(width, height);
    ExpectedSizeText();
  }

  /** Two decimal renderings each followed by `x` and a tail: equal texts have equal parts. */
  lemma DecimalBeforeSeparator(a: string, s: string, b: string, t: string)
    requires forall k :: 0 <= k < |a| ==> IsDecimalChar(a[k])
    requires forall k :: 0 <= k < |b| ==> IsDecimalChar(b[k])
    requires a + "x" + s == b + "x" + t
    ensures a == b && s == t
  {
    var u := a + "x" + s;
    assert u[|a|] == 'x' && u[|b|] == 'x';
    assert forall k :: 0 <= k < |a| ==> u[k] == a[k] && u[k] != 'x';
    assert forall k :: 0 <= k < |b| ==> u[k] == b[k] && u[k] != 'x';
    assert |a| == |b|;
    assert a == u[..|a|] == b;
    assert s == u[|a| + 1..] == t;
  }

  /** End to end, for an image of the accepted size: the listing has the header and 50 data
      lines, and the values the BASIC program reads are the image's palette indices in
      row-major order. */
  lemma AcceptedImageListing(g: Grid)
    requires WellFormed(g)
    ensures |ListingLines(PointsOf(g))| == |HeaderProgram| + 50
    ensures ReadData(ListingLines(PointsOf(g))) == Flatten(g)
  {
    FullImageListing(PointsOf(g));
    ListingReadsBack(PointsOf(g));
    PointsOfWellFormed(g);
  }

  /** The value the BASIC program reads in pass `40 * y + x` of its loops, and pokes at screen
      offset `o = 40 * y + x`, is the palette index of pixel `(x, y)`. */
  lemma PixelReachesScreen(g: Grid, x: int, y: int)
    requires WellFormed(g)
    requires 0 <= x < ImgWidth && 0 <= y < ImgHeight
    ensures Offset(x, y) < |ReadData(ListingLines(PointsOf(g)))|
    ensures ReadData(ListingLines(PointsOf(g)))[Offset(x, y)] == g[y][x]
  {
    ListingReadsBack(PointsOf(g));
    PointsAt(g, x, y);
  }
}
