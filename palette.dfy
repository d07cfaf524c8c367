/** The fixed 16-colour palette (`colorPallet`), the widening of an 8-bit colour to the
    16-bit-per-channel tuple `colorRGBA` (`transformRGBAToRGBAColor`) and the exact palette
    lookup `detectPixelColorCode`, which turns a pixel colour into its palette index. */
module Colors {

  type byte = x: int | 0 <= x < 0x100
  type uint32 = x: int | 0 <= x < 0x1_0000_0000

  datatype Option<T> = None | Some(value: T)

  /** Go's `color.RGBA`: four 8-bit channels. */
  datatype Rgba = Rgba(r: byte, g: byte, b: byte, a: byte)

  /** `colorRGBA`: the four 16-bit values `color.Color.RGBA()` returns, held in `uint32`s. */
  datatype Wide = Wide(r: uint32, g: uint32, b: uint32, a: uint32)

  /** One channel of `color.RGBA.RGBA()`: the byte copied into both halves of a 16-bit value
      (`c | c << 8`, that is `c * 0x101`). */
  function WidenChannel(c: byte): (w: uint32)
    ensures w < 0x1_0000
    ensures w / 0x100 == c && w % 0x100 == c
  {
    c * 0x101
  }

  /** `transformRGBAToRGBAColor` for a `color.RGBA` pixel: every channel widened, alpha included. */
  function Widen(c: Rgba): (w: Wide)
    ensures w.r / 0x100 == c.r && w.r % 0x100 == c.r
    ensures w.g / 0x100 == c.g && w.g % 0x100 == c.g
    ensures w.b / 0x100 == c.b && w.b % 0x100 == c.b
    ensures w.a / 0x100 == c.a && w.a % 0x100 == c.a
  {
    Wide(WidenChannel(c.r), WidenChannel(c.g), WidenChannel(c.b), WidenChannel(c.a))
  }

  /** Widening loses nothing: two colours widen to the same tuple exactly when they are equal,
      so comparing widened colours is comparing colours. */
  lemma WidenInjective(c: Rgba, d: Rgba)
    ensures Widen(c) == Widen(d) <==> c == d
  {
    if Widen(c) == Widen(d) {
      assert c.r == Widen(c).r / 0x100 == Widen(d).r / 0x100 == d.r;
    }
  }

  /** `colorPallet`: the 16 colours, black (0) to light grey (15). */
  const Palette: seq<Rgba> := [
    Rgba(0x00, 0x00, 0x00, 0xff), // black
    Rgba(0xff, 0xff, 0xff, 0xff), // white
    Rgba(0x9f, 0x4e, 0x44, 0xff), // red
    Rgba(0x6a, 0xbf, 0xc6, 0xff), // cyan
    Rgba(0xa0, 0x57, 0xa3, 0xff), // purple
    Rgba(0x5c, 0xab, 0x5e, 0xff), // green
    Rgba(0x50, 0x45, 0x9b, 0xff), // blue
    Rgba(0xc9, 0xd4, 0x87, 0xff), // yellow
    Rgba(0xa1, 0x68, 0x3c, 0xff), // orange
    Rgba(0x6d, 0x54, 0x12, 0xff), // brown
    Rgba(0xcb, 0x7e, 0x75, 0xff), // light red
    Rgba(0x62, 0x62, 0x62, 0xff), // dark grey
    Rgba(0x89, 0x89, 0x89, 0xff), // mid grey
    Rgba(0x9a, 0xe2, 0x9b, 0xff), // light green
    Rgba(0x88, 0x7e, 0xcb, 0xff), // light blue
    Rgba(0xad, 0xad, 0xad, 0xff)  // light grey
  ]

  /** A position in the palette. */
  type PaletteIndex = i: int | 0 <= i < 16

  /** The palette's colours are pairwise distinct, so each index names one colour. */
  lemma PaletteDistinct()
    ensures |Palette| == 16
    ensures forall i, j :: 0 <= i < j < |Palette| ==> Palette[i] != Palette[j]
  {
  }

  /** The palette's widened colours, the keys the lookup compares against. */
  function PaletteKeys(): (keys: seq<Wide>)
    ensures |keys| == |Palette|
    ensures forall i :: 0 <= i < |Palette| ==> keys[i] == Widen(Palette[i])
  {
    seq(|Palette|, i requires 0 <= i < |Palette| => Widen(Palette[i]))
  }

  /** The keys are pairwise distinct, so the first match of a key is its only match. */
  lemma PaletteKeysDistinct()
    ensures forall i, j :: 0 <= i < j < |PaletteKeys()| ==> PaletteKeys()[i] != PaletteKeys()[j]
  {
    PaletteDistinct();
    forall i, j | 0 <= i < j < |PaletteKeys()| ensures PaletteKeys()[i] != PaletteKeys()[j] {
      WidenInjective(Palette[i], Palette[j]);
    }
  }

  /** The first position of `key` in `keys`, if any. */
  function FirstMatch(keys: seq<Wide>, key: Wide): (r: Option<nat>)
    ensures r.Some? ==> r.value < |keys| && keys[r.value] == key
    ensures r.Some? ==> forall j :: 0 <= j < r.value ==> keys[j] != key
    ensures r.None? <==> key !in keys
  {
    if keys == [] then None
    else if keys[0] == key then Some(0)
    else match FirstMatch(keys[1..], key)
      case None => None
      case Some(k) => Some(k + 1)
  }

  /** The palette index the lookup gives a colour: the first palette colour equal to it
      after widening, or 0 (black) when there is none. */
  function ColorCode(c: Rgba): (code: PaletteIndex)
    ensures c in Palette ==> Palette[code] == c
    ensures c !in Palette ==> code == 0
  {
    match FirstMatch(PaletteKeys(), Widen(c))
    case Some(i) =>
      WidenInjective(Palette[i], c);
      i
    case None =>
      assert c !in Palette by {
        forall j | 0 <= j < |Palette| ensures Palette[j] != c {
          WidenInjective(Palette[j], c);
          assert PaletteKeys()[j] == Widen(Palette[j]);
        }
      }
      0
  }

  /** `detectPixelColorCode`: scan the palette in order, widening each entry, and return the
      first index whose widened colour equals the pixel's; 0 when the scan finds none. */
  method DetectPixelColorCode(c: Rgba) returns (code: int)
    ensures code == ColorCode(c)
    ensures 0 <= code < |Palette|
  {
    var key := Widen(c);
    var i := 0;
    while i < |Palette|
      invariant 0 <= i <= |Palette|
      invariant forall j :: 0 <= j < i ==> Widen(Palette[j]) != key
    {
      if key == Widen(Palette[i]) {
        return i;
      }
      i := i + 1;
    }
    return 0;
  }

  /** Looking up palette entry `i` gives back `i`: colour and index determine each other. */
  lemma ColorCodeOfEntry(i: PaletteIndex)
    ensures ColorCode(Palette[i]) == i
  {
    PaletteDistinct();
  }

  /** The lookup as an if-and-only-if: a colour gets index `i` exactly when it is palette
      entry `i`, or when `i` is 0 and the colour is not in the palette at all. */
  lemma ColorCodeChar(c: Rgba, i: PaletteIndex)
    ensures ColorCode(c) == i <==> (c == Palette[i] || (i == 0 && c !in Palette))
  {
    PaletteDistinct();
  }

  /** The miss path: a colour outside the palette, such as #123456, gets index 0, like black. */
  lemma UnknownColorIsBlack()
    ensures ColorCode(Rgba(0x12, 0x34, 0x56, 0xff)) == 0
    ensures ColorCode(Rgba(0x12, 0x34, 0x56, 0xff)) == ColorCode(Palette[0])
  {
    ColorCodeOfEntry(0);
  }

  /** The widening of three palette colours, channel by channel. */
  lemma WidenExamples()
    ensures Widen(Palette[0]) == Wide(0, 0, 0, 0xffff)
    ensures Widen(Palette[1]) == Wide(0xffff, 0xffff, 0xffff, 0xffff)
    ensures Widen(Palette[2]) == Wide(0x9f9f, 0x4e4e, 0x4444, 0xffff)
  {
  }
}
