# c64img: from a 40x25 palette image to a Commodore 64 BASIC listing

`c64img` converts a 40x25 image into a BASIC program for the Commodore 64. Run on that
machine, the program fills the 40x25 text screen with reverse-space characters and colours
each cell with one of the machine's 16 colours. This project models the deterministic half of
that pipeline and proves what it promises:

- **the palette** (`colorPallet`): the 16 fixed colours, index 0 (black) to 15 (light grey);
- **colour widening** (`transformRGBAToRGBAColor`): every 8-bit channel `c` of a `color.RGBA`
  becomes the 16-bit value `c * 0x101`, alpha included;
- **the palette lookup** (`detectPixelColorCode`): a linear scan of the palette comparing
  widened colours, which returns the first equal index, or 0 when none is equal;
- **flattening** (`getPoints`): the quantised image, read row by row through nested `y`/`x`
  loops, gives 1000 palette indices, where entry `40 * y + x` is pixel `(x, y)`;
- **the listing** (`writeImageCode` and the `header` constant): the fixed 8-line header,
  then the points cut into rows of 20 by an `i += 20` loop. Each row becomes one line
  `"<1000 + 10k> data <v1>,<v2>,... \n"`. The row text comes from
  `strings.Trim(strings.Join(strings.Fields(fmt.Sprint(row)), ","), "[]")`, which the model
  follows call by call;
- **the size check in `main`**: an image that is not 40x25 is refused with its message before
  anything is computed or written.

The model is in nine modules:

- `Colors` (`palette.dfy`) holds the palette, the widening and the lookup.
- `Points` (`points.dfy`) holds the grid and `getPoints`.
- `Basic` (`basic.dfy`) holds numbered BASIC lines and the header program.
- `Listing` (`listing.dfy`) holds the chunking, the row text, `writeImageCode`, the line
  numbers and a reader of the listing.
- `ListingExamples` (`listing_examples.dfy`) holds the listing of the points 0 to 9.
- `ExportText` (`export.dfy`) holds the header's verbatim text.
- `Converter` (`converter.dfy`) holds `main` from the size check on.
- `Text` (`text.dfy`) and `Seqs` (`seqs.dfy`) hold the parts of `fmt`/`strings` the emitter
  uses, and sequence helpers.

The loops of the Go code are methods with loop invariants:

- `DetectPixelColorCode` is the early-return palette scan.
- `GetPoints` is the nested pixel loops.
- `SplitRows` is the `i += 20` cutting loop.
- `WriteDataLines` is the writing loop with `lineNum += 10`.
- `WriteImageCode` writes the header, then runs the two loops.

Each method is proved equal to a specification function (`ColorCode`, `PointsOf`, `Chunk`,
the data lines' `Concat(DataLines(rows))`, `ListingText`). The source's promises are then
proved about those functions.

`ListingReadsBack` states what the listing carries. It uses a reader that takes
the values of the `data` lines the way the header's `read c` loop does: it splits the text
between ` data ` and ` \n` at commas and parses the decimals. Reading the listing back gives
exactly the points that were written. For an accepted image, the value read in pass
`40 * y + x` and poked at screen offset `o = 40 * y + x` is pixel `(x, y)`'s palette index
(`PixelReachesScreen`).

Points about the code worth knowing:

- The lookup is a linear first-match scan. `main_test.go` refers to a prebuilt
  `colorToIndex` map; such a map gives the same indices, because the widened palette colours
  are pairwise distinct (`PaletteKeysDistinct`).
- A data line ends with a space before the newline (`" \n"`), as the format string writes it.
- `main_test.go` calls functions that `main.go` does not define: `pixelColorCode`,
  `splitIntoRows`, `generateBASICProgram`, `colorPalette`. Its expectations are used as
  examples for the corresponding `main.go` code (`WidenExamples`, `UnknownColorIsBlack`,
  `ChunkExamples`, `TenPointsListing`).

## Model

| member | source | states |
|---|---|---|
| Colors.WidenChannel | main.go:171-181 | a widened channel is below 0x10000, and both of its bytes equal the 8-bit channel (`c * 0x101`) |
| Colors.Widen | main.go:171-181 | every channel of the widened tuple, alpha included, has the pixel's channel in both bytes |
| Colors.WidenInjective | main.go:159-163 | two colours widen to the same tuple exactly when they are equal, so comparing widened colours compares colours |
| Colors.WidenExamples | main_test.go:18-47 | black widens to (0, 0, 0, 0xffff), white to all 0xffff, red to (0x9f9f, 0x4e4e, 0x4444, 0xffff) |
| Colors.PaletteDistinct | main.go:27-44 | the palette has 16 entries, pairwise distinct |
| Colors.PaletteKeysDistinct | main_test.go:114-125 | the widened palette colours `PaletteKeys()` are pairwise distinct, so a colour-to-index map built from them has 16 keys and the first match of a key is its only match |
| Colors.FirstMatch | main.go:161-166 | a found position holds the key and no earlier position does; nothing is found exactly when the key is absent |
| Colors.ColorCode | main.go:158-169 | a palette colour gets an index whose entry is that colour; a colour outside the palette gets 0 |
| Colors.DetectPixelColorCode | main.go:158-169 | the early-return scan returns `ColorCode(c)`, an index in [0, 15] |
| Colors.ColorCodeOfEntry | main.go:161-165 | looking up palette entry `i` returns `i`, for every `i` in 0..15 |
| Colors.ColorCodeChar | main.go:158-169 | the lookup gives `i` if and only if the colour is entry `i`, or `i` is 0 and the colour is not in the palette |
| Colors.UnknownColorIsBlack | main.go:168 | #123456 is not in the palette and gets index 0, the same as black |
| Points.At | main.go:150 | `Paletted.At` returns a palette colour: the pixel's entry, or entry 0 outside the image |
| Points.PointsOf | main.go:145-156 | there are exactly 40 * 25 points, and point `40 * y + x` is the lookup of pixel `(x, y)` |
| Points.GetPoints | main.go:145-156 | the nested loops return `PointsOf(g)` |
| Points.ScanStep | main.go:149-152 | scanning pixel `(x, y)` appends its lookup to the points of the pixels before it |
| Points.ScanEnd | main.go:148-155 | after the last pixel the scanned prefix is all the points |
| Points.PointsOfWellFormed | main.go:145-156 | for a 25-row, 40-column grid the points are its palette indices laid row after row |
| Points.PointOfWellFormed | main.go:148-153 | point `i` is entry `i` of the flattened grid |
| Points.PointsAt | main.go:148-153 | for a 40x25 grid, point `40 * y + x` is the index stored at pixel `(x, y)` |
| Points.FlattenAt | main.go:53 | entry `o = 40 * y + x` of the flattened grid is pixel `(x, y)` |
| Basic.TwoDigitNumber | main.go:51-58 | a line number from 10 to 99 renders as its tens digit followed by its units digit |
| Basic.TwoDigitLine | main.go:51-58 | a header line renders as its two digits, a space, the statement and a newline |
| Basic.HeaderLine10 | main.go:51 | the first header line renders as `10 for y = 0 to 24` and a newline |
| Basic.HeaderLine20 | main.go:52 | the second renders as `20 for x = 0 to 39` and a newline |
| Basic.HeaderLine30 | main.go:53 | the third renders as `30 o = 40 * y + x` and a newline |
| Basic.HeaderLine40 | main.go:54 | the fourth renders as `40 poke 1024 + o, 160` and a newline |
| Basic.HeaderLine45 | main.go:55 | the fifth renders as `45 read c` and a newline |
| Basic.HeaderLine50 | main.go:56 | the sixth renders as `50 poke 55296 + o, c` and a newline |
| Basic.HeaderLine60 | main.go:57 | the seventh renders as `60 next x,y` and a newline |
| Basic.HeaderLine70 | main.go:58 | the eighth renders as `70 goto 70` and a newline |
| Basic.HeaderNumbers | main.go:50-58 | the header's line numbers rise strictly and lie between 10 and 70 |
| ExportText.HeaderIsVerbatim | main.go:50-58 | the header written first, the rendered lines `HeaderLines()` of the header program laid end to end, is the `header` constant, character for character |
| ExportText.ListingBeginsWithHeader | main.go:190-217 | the listing is the verbatim header followed by the data lines, and nothing else |
| Listing.Chunk | main.go:195-206 | every row holds between 1 and 20 points |
| Listing.ChunkConcat | main.go:198-206 | the rows laid end to end give the points back |
| Listing.ChunkShape | main.go:198-206 | no rows exactly when no points; `r` rows with `20(r-1) < n <= 20r`, that is `ceil(n/20)`; all rows but the last hold 20 points; the last holds `n - 20(r-1)` |
| Listing.RowCount | main.go:198-206 | the number of rows is `(n + 19) / 20` |
| Listing.SplitRows | main.go:195-206 | the `i += 20` loop, with `end` clamped to the length, builds `Chunk(points, 20)` |
| Listing.ChunkStep | main.go:199-205 | one trip of the loop: the rows from `i` on are `points[i:end]` followed by the rows from `i + 20` on, so appending `points[i:end]` keeps the rows cut so far and the rows still to cut equal to all the rows |
| Listing.CutEnd | main.go:198 | once `i` is past the last point no row is left to cut, so the rows cut are all the rows |
| Listing.ChunkExamples | main_test.go:136-165 | an even split, an uneven split, a single row, empty input with no rows, and rows of one |
| Listing.Decimals | main.go:210 | rendering `i` of a row is the decimal of point `i` |
| Listing.DecimalsArePlain | main.go:210 | no rendering is empty or holds white space, a bracket or a comma |
| Listing.FormatRowIsCommaJoin | main.go:210 | the `Sprint`/`Fields`/`Join`/`Trim` chain gives the decimals joined by commas (empty for an empty row) |
| Listing.EmptyRowText | main.go:210 | an empty row prints as `[]` and its row text is empty |
| Listing.SprintFields | main.go:210 | the fields of a non-empty row's `Sprint` are its decimals, with `[` on the first and `]` on the last |
| Listing.TrimBracketedRow | main.go:210 | joining those fields with commas and trimming the brackets gives the comma-joined decimals |
| Text.IntToDecimal | main.go:210-211 | Go's decimal of an `int`: at least one character, a leading `-` exactly for negatives, only digits and `-` |
| Text.NatToDecimal | main.go:211 | `%d` of a line number: digits only, no leading zero except for 0 itself |
| Text.IntDecimalRoundTrip | main.go:210 | parsing a rendered integer gives the integer back |
| Text.IntDecimalInjective | main.go:102-103 | distinct integers have distinct renderings |
| Text.FieldsFromConcat | main.go:210 | the fields produced from a point in the scan, laid end to end, are the field read so far and the rest of the text without its white space |
| Text.FieldsConcat | main.go:210 | the fields of `strings.Fields`, laid end to end, are the text with its white space removed |
| Text.FieldsFromAtSpace | main.go:210 | a white-space character ends the field being read, and the text after it is split on its own |
| Text.FieldsAtSpace | main.go:210 | `strings.Fields` splits at every white-space character: the fields of `a`, a space, `b` are the fields of `a` then those of `b` |
| Text.FieldsOfWord | main.go:210 | a non-empty run of non-space characters is a single field |
| Text.FieldsOfSpaceJoin | main.go:210 | the fields of `[d1 d2 ... dn]` are `[d1`, `d2`, ..., `dn]` |
| Text.JoinBracketed | main.go:210 | joining those fields with commas gives `[`, the comma-joined decimals, `]` |
| Text.TrimLeft | main.go:210 | `strings.TrimLeft` returns a suffix of the text; every character it removes is in the cut set, and the suffix does not start with one |
| Text.TrimRight | main.go:210 | `strings.TrimRight` returns a prefix of the text; every character it removes is in the cut set, and the prefix does not end with one |
| Text.TrimWrapped | main.go:210 | trimming `[` and `]` from a bracketed text whose ends are not brackets leaves the text |
| Text.TrimLeftOne | main.go:210 | `TrimLeft` removes one leading cut character before a text that starts with a character not in the cut set, and nothing more |
| Text.TrimRightOne | main.go:210 | `TrimRight` removes one trailing cut character after a text that ends with a character not in the cut set, and nothing more |
| Text.SplitJoin | main.go:210 | splitting the comma-joined decimals at commas gives the decimals back |
| Listing.DataLineIsBasicLine | main.go:211 | data line `k` is BASIC line `1000 + 10k` with statement `data <row text> ` |
| Listing.WriteImageCode | main.go:183-220 | writing the header, cutting the rows, then writing one line per row returns `ListingText(points)` |
| Listing.WriteDataLines | main.go:207-217 | the row loop writes the data lines of the rows one after another, row `k` as line `1000 + 10k` |
| Listing.WriteStep | main.go:208-216 | the line written for row `k`, numbered `1000 + 10k`, is data line `k`, appended to the lines before it |
| Listing.WriteEnd | main.go:208-217 | after the last row every data line has been written |
| Listing.HeaderAndData | main.go:190-217 | the listing's text is the header followed by the data lines' text |
| Listing.RenderedLineNumber | main.go:211 | a rendered BASIC line starts with its own number |
| Listing.DataLineNumber | main.go:208-216 | data line `k` of `DataLines(rows)`, the line written for row `k`, starts with the number `1000 + 10k` |
| Listing.ListingLineNumber | main.go:208-216 | listing line `i` starts with header number `i`, or with `1000 + 10(i - 8)` |
| Listing.LineNumbersIncrease | main.go:208-216 | line numbers rise strictly through the whole listing, so no two lines share a number and every data line number is above the header's |
| Listing.DataValuesOfLine | main.go:211 | the items of `"<n> data <text> \n"` are `text` split at commas |
| Listing.RowTextReadsBack | main.go:210 | splitting a non-empty row text at commas and parsing each item (`ParseItems`) gives the row back |
| Listing.DataLineReadsBack | main.go:211 | reading a data line gives back exactly the row written into it |
| Listing.NonDataLineReadsNothing | main.go:50-58 | a line whose statement does not start with `d` carries no data values |
| Listing.HeaderReadsNothing | main.go:50-58 | the header lines carry no data values |
| Listing.ReadDataLines | main.go:208-217 | reading the data lines of non-empty rows gives the rows concatenated |
| Listing.ListingReadsBack | main.go:183-220 | reading every data value of the listing in order gives back exactly the points |
| Listing.FullImageListing | main.go:195-216 | 1000 points give 8 + 50 lines, 50 full rows of 20, the last numbered 1490 |
| ListingExamples.DigitRowText | main.go:210 | points that are single digits give the digits separated by commas |
| ListingExamples.DigitsTextShape | main.go:210 | for single-digit points, the row text has digit `i` at position `2i` and commas in between |
| ListingExamples.DigitsOfZeroToNine | main_test.go:273-276 | the digits 0..9 separated by commas are the text `0,1,2,3,4,5,6,7,8,9` |
| ListingExamples.RowTextExample | main_test.go:273-276 | the points 0..9 give the text `0,1,2,3,4,5,6,7,8,9` |
| ListingExamples.FirstNumberText | main.go:208 | the first data line number renders as `1000` |
| ListingExamples.FirstDataLine | main.go:208-211 | the first data line is `1000 data `, the comma-joined decimals, ` ` and a newline |
| ListingExamples.TenPointsDataLine | main_test.go:268-276 | for the points 0..9 the first data line is `1000 data 0,1,2,3,4,5,6,7,8,9 ` and a newline |
| ListingExamples.TenPointsListing | main_test.go:248-276 | the points 0..9 give the header followed by that single data line |
| Converter.Convert | main.go:101-140 | refused exactly when the size is not 40x25, with the size message; otherwise the output is the listing of the image's points |
| Converter.ExpectedSizeText | main.go:102-103 | the fixed part of the message, with `imgWidth` and `imgHeight` filled in, is `Wrong image size. Expected 40x25, got: ` |
| Converter.SizeMessageText | main.go:102-103 | the message is `Wrong image size. Expected 40x25, got: `, the width, `x`, the height and a newline |
| Converter.SizeMessageNamesSize | main.go:102-103 | two size messages are equal exactly when the sizes are equal |
| Converter.DecimalBeforeSeparator | main.go:102 | `<decimal>x<tail>` determines both the decimal and the tail |
| Converter.AcceptedImageListing | main.go:135-137 | for a 40x25 image: 8 + 50 lines, and the values read back are the grid's indices in row-major order |
| Converter.PixelReachesScreen | main.go:53 | the value read in pass `40 * y + x` (screen offset `o`) is the palette index of pixel `(x, y)` |

## Left out

- Command-line handling is not modelled: flags, the usage text, the default output name and
  `os.Exit`. `Converter.Convert` takes the decoded width and height as parameters and returns
  `Rejected` where the program prints its message and exits.
- File and format I/O is not modelled: opening, seeking, creating and writing files,
  `image.DecodeConfig`, `image.Decode`, `png.Encode` and format registration. These are calls
  into Go's libraries, and their errors (`log.Fatal`) are not modelled.
  `Listing.WriteImageCode` returns the text it would write to the export file.
- The PNG preview written between the size check and the listing is not modelled. For the
  model, "no output" on a wrong size means that neither the preview nor the listing is
  produced.
- Quantisation (`draw.Src` or `draw.FloydSteinberg` into an `image.Paletted`) is Go library
  code. The quantised image is an input to the model: a grid of palette indices.
- Colors.Widen: covers `color.RGBA` values only, without the premultiplication that other
  colour models perform in `RGBA()`. Every colour the lookup receives comes from
  `Paletted.At`, which returns an entry of the palette, and those entries are all
  `color.RGBA`.
- Text.IsSpace: `strings.Fields` white space is modelled for characters below U+0100. The
  only white space in the row text is the ASCII space that `fmt.Sprint` writes.
- A failed write of a data line is printed and then ignored, and `writeImageCode` still
  returns `nil`. That write error is I/O and is not modelled.
- The quantised image has the decoded image's bounds (`image.NewPaletted(img.Bounds(), …)`).
  For PNG and JPEG those bounds start at (0, 0). A GIF's first frame may be smaller than
  the 40x25 logical screen or offset within it. Such an image still passes the size check,
  because `image.DecodeConfig` reports the screen size. The model represents it as the
  40x25 grid in screen coordinates, holding index 0 in every cell outside the frame: that is
  what `Paletted.At` returns there, and so what `getPoints` reads. Lookups outside the grid
  return palette entry 0, as `Paletted.At` does.
- The listing reader (`Text.Split`, `Text.ParseInt`, `Listing.ReadData`) is not code of the
  tool. It is there to state what the listing carries, read the way the header's `read c`
  loop reads it.
- Integer widths: Go's 32-bit channel values and 64-bit `int`s are unbounded here. The widened
  channels are below 0x10000, palette indices below 16 and line numbers at most 1490, so no
  value comes near a wrap-around.
