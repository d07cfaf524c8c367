/** The export file's text: the `header` constant verbatim, then the `data` lines.

    The constant's literal text lives here, apart from the header program in `Basic`: the
    proofs about the header's lines and numbers work on the program's structure, and keeping
    the long literal out of their module keeps those proofs small. `HeaderIsVerbatim` ties
    the two together. */
module ExportText {
  import opened Seqs
  import opened Basic
  import opened Listing

  /** The `header` constant's text, a concatenation of its eight line literals. */
  const HeaderText: string :=
    "10 for y = 0 to 24\n" +
    "20 for x = 0 to 39\n" +
    "30 o = 40 * y + x\n" +
    "40 poke 1024 + o, 160\n" +
    "45 read c\n" +
    "50 poke 55296 + o, c\n" +
    "60 next x,y\n" +
    "70 goto 70\n"

  /** The header written first is the `header` constant, character for character. */
  lemma HeaderIsVerbatim()
    ensures Header() == HeaderText
  {
    var hp := HeaderProgram;
    assert HeaderLines() == [RenderLine(hp[0]), RenderLine(hp[1]), RenderLine(hp[2]), RenderLine(hp[3]),
                             RenderLine(hp[4]), RenderLine(hp[5]), RenderLine(hp[6]), RenderLine(hp[7])];
    ConcatEight(RenderLine(hp[0]), RenderLine(hp[1]), RenderLine(hp[2]), RenderLine(hp[3]),
                RenderLine(hp[4]), RenderLine(hp[5]), RenderLine(hp[6]), RenderLine(hp[7]));
    HeaderLine10();
    HeaderLine20();
    HeaderLine30();
    HeaderLine40();
    HeaderLine45();
    HeaderLine50();
    HeaderLine60();
    HeaderLine70();
  }

  /** The listing is the verbatim header followed by the data lines and nothing else. */
  lemma ListingBeginsWithHeader(points: seq<int>)
    ensures ListingText(points) == HeaderText + Concat(DataLines(Chunk(points, RowSize)))
  {
    HeaderAndData(points);
    HeaderIsVerbatim();
  }
}
