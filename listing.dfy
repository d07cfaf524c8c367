/** `writeImageCode`: the BASIC listing. A fixed 8-line header that pokes a reverse-space
    character into every screen cell and reads its colour from `data` statements, followed
    by the points cut into rows of 20, one `data` line per row, numbered 1000, 1010, ... */
module Listing {
  import opened Seqs
  import opened Text
  import opened Basic

  const RowSize: nat := 20
  const FirstLineNumber: nat := 1000
  const LineStep: nat := 10

  // ---------------------------------------------------------------------------
  // Cutting the points into rows

  /** The points cut into consecutive rows of `n`; the last row holds what is left over. */
  function Chunk<T>(s: seq<T>, n: nat): (rows: seq<seq<T>>)
    requires n > 0
    ensures forall i :: 0 <= i < |rows| ==> 0 < |rows[i]| <= n
    decreases |s|
  {
    if |s| == 0 then []
    else if |s| <= n then [s]
    else [s[..n]] + Chunk(s[n..], n)
  }

  /** The rows laid end to end give the points back. */
  lemma {:induction false} ChunkConcat<T>(s: seq<T>, n: nat)
    requires n > 0
    ensures Concat(Chunk(s, n)) == s
    decreases |s|
  {
    if |s| > n {
      ChunkConcat(s[n..], n);
      ConcatCons(s[..n], Chunk(s[n..], n));
      assert s[..n] + s[n..] == s;
    } else if |s| > 0 {
      ConcatCons(s, []);
    }
  }

  /** There are `ceil(|s| / n)` rows, that is the `r` with `n * (r - 1) < |s| <= n * r`:
      every row but the last is full, and the last holds the remaining
      `|s| - n * (r - 1)` points; no input, no rows. */
  lemma {:induction false} ChunkShape<T>(s: seq<T>, n: nat)
    requires n > 0
    ensures |Chunk(s, n)| == 0 <==> |s| == 0
    ensures |s| <= n * |Chunk(s, n)|
    ensures |s| > 0 ==> n * (|Chunk(s, n)| - 1) < |s|
    ensures forall i :: 0 <= i < |Chunk(s, n)| - 1 ==> |Chunk(s, n)[i]| == n
    ensures |s| > 0 ==> |Chunk(s, n)[|Chunk(s, n)| - 1]| == |s| - n * (|Chunk(s, n)| - 1)
    decreases |s|
  {
    var rows := Chunk(s, n);
    if |s| > n {
      var rest := Chunk(s[n..], n);
      ChunkShape(s[n..], n);
      assert rows == [s[..n]] + rest;
      assert rows[|rows| - 1] == rest[|rest| - 1];
      MulStep(n, |rest| - 1);
      MulStep(n, |rest|);
    }
  }

  lemma MulStep(n: nat, k: int)
    ensures n * (k + 1) == n * k + n
  {
  }

  /** For the emitter's rows of 20: `(|s| + 19) / 20` rows. */
  lemma RowCount(s: seq<int>)
    ensures |Chunk(s, RowSize)| == (|s| + RowSize - 1) / RowSize
  {
    ChunkShape(s, RowSize);
  }

  /** Go's cutting loop: `i` steps by 20 and each row ends at `i + 20` or at the last point. */
  method SplitRows(points: seq<int>) returns (rows: seq<seq<int>>)
    ensures rows == Chunk(points, RowSize)
  {
    rows := [];
    var i := 0;
    while i < |points|
      invariant 0 <= i
      invariant rows + Chunk(Rest(points, i), RowSize) == Chunk(points, RowSize)
      decreases |points| - i
    {
      var end := i + RowSize;
      if end > |points| {
        end := |points|;
      }
      ChunkStep(points, rows, i, end);
      rows := rows + [points[i..end]];
      i := i + RowSize;
    }
    CutEnd(points, rows, i);
  }

  /** The points the cutting loop has not reached at `i`. */
  ghost function Rest(points: seq<int>, i: nat): seq<int>
  {
    if i < |points| then points[i..] else []
  }

  /** One trip of the cutting loop: the rows from `i` on are the row `[i, end)` and the rows
      from `i + 20` on, so appending that row keeps the rows cut so far and the rest together. */
  lemma ChunkStep(points: seq<int>, rows: seq<seq<int>>, i: nat, end: nat)
    requires i < |points|
    requires end == if i + RowSize > |points| then |points| else i + RowSize
    requires rows + Chunk(Rest(points, i), RowSize) == Chunk(points, RowSize)
    ensures (rows + [points[i..end]]) + Chunk(Rest(points, i + RowSize), RowSize) == Chunk(points, RowSize)
  {
    var t := points[i..];
    if |t| <= RowSize {
      assert end == |points| && t == points[i..end];
    } else {
      assert t[..RowSize] == points[i..end];
      assert t[RowSize..] == points[i + RowSize..];
    }
    var c := Chunk(Rest(points, i + RowSize), RowSize);
    assert Chunk(Rest(points, i), RowSize) == [points[i..end]] + c;
    assert (rows + [points[i..end]]) + c == rows + ([points[i..end]] + c);
  }

  /** Past the last point nothing is left to cut. */
  lemma CutEnd(points: seq<int>, rows: seq<seq<int>>, i: nat)
    requires i >= |points|
    requires rows + Chunk(Rest(points, i), RowSize) == Chunk(points, RowSize)
    ensures rows == Chunk(points, RowSize)
  {
    assert Chunk(Rest(points, i), RowSize) == [];
    assert rows + [] == rows;
  }

  /** Row examples: an even split, an uneven split, one short row, no input, rows of one. */
  lemma ChunkExamples()
    ensures Chunk([1, 2, 3, 4, 5, 6], 3) == [[1, 2, 3], [4, 5, 6]]
    ensures Chunk([1, 2, 3, 4, 5], 3) == [[1, 2, 3], [4, 5]]
    ensures Chunk([1, 2, 3], 5) == [[1, 2, 3]]
    ensures Chunk<int>([], 3) == []
    ensures Chunk([1, 2, 3], 1) == [[1], [2], [3]]
  {
    assert [1, 2, 3, 4, 5, 6][..3] == [1, 2, 3] && [1, 2, 3, 4, 5, 6][3..] == [4, 5, 6];
    assert [1, 2, 3, 4, 5][..3] == [1, 2, 3] && [1, 2, 3, 4, 5][3..] == [4, 5];
    assert [1, 2, 3][..1] == [1] && [1, 2, 3][1..] == [2, 3];
    assert [2, 3][..1] == [2] && [2, 3][1..] == [3];
  }

  // ---------------------------------------------------------------------------
  // Rendering one row

  /** The decimal renderings of the points of a row, in order. */
  function Decimals(row: seq<int>): (ds: seq<string>)
    ensures |ds| == |row|
    ensures forall i :: 0 <= i < |row| ==> ds[i] == IntToDecimal(row[i])
  {
    if row == [] then [] else [IntToDecimal(row[0])] + Decimals(row[1..])
  }

  /** `fmt.Sprint(row)` for an `[]int`: `[`, the points separated by single spaces, `]`. */
  function Sprint(row: seq<int>): string
  {
    "[" + Join(Decimals(row), " ") + "]"
  }

  /** The row text exactly as the emitter builds it: `Sprint`, split into fields at white
      space, fields joined by commas, and the brackets trimmed from both ends. */
  function FormatRow(row: seq<int>): string
  {
    Trim(Join(Fields(Sprint(row)), ","), "[]")
  }

  /** No rendering of a point holds white space, a bracket or a comma. */
  lemma DecimalsArePlain(row: seq<int>)
    ensures forall i :: 0 <= i < |row| ==>
      Decimals(row)[i] != [] && NoSpace(Decimals(row)[i]) && NoneIn(Decimals(row)[i], "[]") && ',' !in Decimals(row)[i]
  {
    var ds := Decimals(row);
    forall i | 0 <= i < |ds| ensures ds[i] != [] && NoSpace(ds[i]) && NoneIn(ds[i], "[]") && ',' !in ds[i] {
      assert forall k :: 0 <= k < |ds[i]| ==> IsDecimalChar(ds[i][k]);
    }
  }

  /** What that chain computes: the decimal renderings of the points joined by commas
      (for the empty row, the empty text). */
  lemma FormatRowIsCommaJoin(row: seq<int>)
    ensures FormatRow(row) == Join(Decimals(row), ",")
  {
    if row == [] {
      EmptyRowText();
    } else {
      SprintFields(row);
      TrimBracketedRow(row);
    }
  }

  /** An empty row prints as `[]`, which is one field that trims to nothing. */
  lemma EmptyRowText()
    ensures FormatRow([]) == ""
  {
    var row: seq<int> := [];
    assert Sprint(row) == "[]";
    FieldsSkipWord("[]", [], []);
    assert "[]" + [] == "[]" && [] + "[]" == "[]";
    assert Fields("[]") == ["[]"];
    assert Trim("[]", "[]") == "";
  }

  /** The fields of a non-empty row's `Sprint` are its decimals, the first with `[` in front
      and the last with `]` behind. */
  lemma SprintFields(row: seq<int>)
    requires row != []
    ensures Fields(Sprint(row)) == Bracketed(Decimals(row), "[", "]")
  {
    var ds := Decimals(row);
    DecimalsArePlain(row);
    FieldsSkipWord("[", Join(ds, " ") + "]", []);
    assert Sprint(row) == "[" + (Join(ds, " ") + "]");
    assert [] + "[" == "[";
    FieldsOfSpaceJoin(ds, "[", "]");
  }

  /** Joining those fields by commas and trimming the brackets leaves the comma-joined decimals. */
  lemma TrimBracketedRow(row: seq<int>)
    requires row != []
    ensures Trim(Join(Bracketed(Decimals(row), "[", "]"), ","), "[]") == Join(Decimals(row), ",")
  {
    var ds := Decimals(row);
    DecimalsArePlain(row);
    JoinBracketed(ds, "[", "]", ",");
    JoinNoneIn(ds, ",", "[]");
    var j := Join(ds, ",");
    assert "[" + j + "]" == ['['] + j + [']'];
    TrimWrapped('[', j, ']', "[]");
  }

  /** The `data` line written for row `k` (counting from 0), as `"%d data %s \n"` formats it. */
  function DataLine(k: nat, row: seq<int>): string
  {
    NatToDecimal(FirstLineNumber + LineStep * k) + " data " + FormatRow(row) + " \n"
  }

  /** A data line is BASIC line `1000 + 10 * k` whose statement is `data`, the row text and a space. */
  lemma DataLineIsBasicLine(k: nat, row: seq<int>)
    ensures DataLine(k, row) == RenderLine(BasicLine(FirstLineNumber + LineStep * k, "data " + FormatRow(row) + " "))
  {
  }

  /** The `data` lines of all the rows, in order. */
  function DataLines(rows: seq<seq<int>>): (lines: seq<string>)
    ensures |lines| == |rows|
    ensures forall k :: 0 <= k < |rows| ==> lines[k] == DataLine(k, rows[k])
  {
    seq(|rows|, k requires 0 <= k < |rows| => DataLine(k, rows[k]))
  }

  /** The whole listing, line by line: the header, then one `data` line per row of 20. */
  function ListingLines(points: seq<int>): (lines: seq<string>)
    ensures |lines| == |HeaderProgram| + |Chunk(points, RowSize)|
    ensures lines[..|HeaderProgram|] == HeaderLines()
    ensures forall k :: 0 <= k < |Chunk(points, RowSize)| ==>
      lines[|HeaderProgram| + k] == DataLine(k, Chunk(points, RowSize)[k])
  {
    var hl, dl := HeaderLines(), DataLines(Chunk(points, RowSize));
    assert (hl + dl)[..|hl|] == hl;
    assert forall k :: 0 <= k < |dl| ==> (hl + dl)[|hl| + k] == dl[k];
    hl + dl
  }

  /** The text of the listing file. */
  function ListingText(points: seq<int>): string
  {
    Concat(ListingLines(points))
  }

  /** `writeImageCode` without the file: the header first, then the rows cut by the first loop
      and written by the second. */
  method WriteImageCode(points: seq<int>) returns (text: string)
    ensures text == ListingText(points)
  {
    text := Header();
    var rows := SplitRows(points);
    var data := WriteDataLines(rows);
    text := text + data;
    HeaderAndData(points);
  }

  /** The writing loop: one `data` line per row, in order, the line number rising by 10. */
  method WriteDataLines(rows: seq<seq<int>>) returns (data: string)
    ensures data == Concat(DataLines(rows))
  {
    data := [];
    var lineNum := FirstLineNumber;
    var k := 0;
    while k < |rows|
      invariant k <= |rows|
      invariant lineNum == FirstLineNumber + LineStep * k
      invariant data == Written(rows, k)
    {
      var colorSeq := FormatRow(rows[k]);
      WriteStep(rows, k);
      data := data + (NatToDecimal(lineNum) + " data " + colorSeq + " \n");
      lineNum := lineNum + LineStep;
      k := k + 1;
    }
    WriteEnd(rows);
  }

  /** The text of the first `k` data lines. */
  ghost function Written(rows: seq<seq<int>>, k: nat): string
    requires k <= |rows|
  {
    Concat(DataLines(rows)[..k])
  }

  /** Writing row `k` appends data line `k`. */
  lemma WriteStep(rows: seq<seq<int>>, k: nat)
    requires k < |rows|
    ensures Written(rows, k + 1) ==
      Written(rows, k) + (NatToDecimal(FirstLineNumber + LineStep * k) + " data " + FormatRow(rows[k]) + " \n")
  {
    ConcatPrefixSnoc(DataLines(rows), k);
  }

  /** Once every row is written the data lines are complete. */
  lemma WriteEnd(rows: seq<seq<int>>)
    ensures Written(rows, |rows|) == Concat(DataLines(rows))
  {
    assert DataLines(rows)[..|rows|] == DataLines(rows);
  }

  /** The listing is the header lines followed by the data lines. */
  lemma HeaderThenData(points: seq<int>)
    ensures ListingLines(points) == HeaderLines() + DataLines(Chunk(points, RowSize))
  {
  }

  /** The listing's text is the header followed by the data lines' text. */
  lemma HeaderAndData(points: seq<int>)
    ensures ListingText(points) == Header() + Concat(DataLines(Chunk(points, RowSize)))
  {
    HeaderThenData(points);
    ConcatAppend(HeaderLines(), DataLines(Chunk(points, RowSize)));
  }

  // ---------------------------------------------------------------------------
  // Line numbers

  /** The BASIC line number a line starts with. */
  function LineNumber(line: string): nat
  {
    DecimalValue(LeadingDigits(line))
  }

  /** A rendered line starts with its own number. */
  lemma RenderedLineNumber(l: BasicLine)
    ensures LineNumber(RenderLine(l)) == l.number
  {
    var d := NatToDecimal(l.number);
    var rest := " " + l.statement + "\n";
    assert RenderLine(l) == d + rest;
    LeadingDigitsOf(d, rest);
    NatDecimalRoundTrip(l.number);
  }

  /** Data line `k` is numbered `1000 + 10 * k`. */
  lemma DataLineNumber(k: nat, row: seq<int>)
    ensures LineNumber(DataLine(k, row)) == FirstLineNumber + LineStep * k
  {
    DataLineIsBasicLine(k, row);
    RenderedLineNumber(BasicLine(FirstLineNumber + LineStep * k, "data " + FormatRow(row) + " "));
  }

  /** The number line `i` of a listing starts with: the header's own numbers, then 1000, 1010, ... */
  function ExpectedLineNumber(i: nat): nat
  {
    if i < |HeaderProgram| then HeaderProgram[i].number
    else FirstLineNumber + LineStep * (i - |HeaderProgram|)
  }

  /** Every line of the listing starts with its expected number. */
  lemma ListingLineNumber(points: seq<int>, i: nat)
    requires i < |ListingLines(points)|
    ensures LineNumber(ListingLines(points)[i]) == ExpectedLineNumber(i)
  {
    var lines := ListingLines(points);
    var h := |HeaderProgram|;
    if i >= h {
      DataLineNumber(i - h, Chunk(points, RowSize)[i - h]);
    } else {
      assert lines[i] == lines[..h][i] == RenderLine(HeaderProgram[i]);
      RenderedLineNumber(HeaderProgram[i]);
    }
  }

  /** Line numbers increase strictly through the whole listing: the header's run from 10 to
      70, the data lines' from 1000 up, so no data line collides with a header line or with
      another data line. */
  lemma LineNumbersIncrease(points: seq<int>, i: nat, j: nat)
    requires i < j < |ListingLines(points)|
    ensures LineNumber(ListingLines(points)[i]) < LineNumber(ListingLines(points)[j])
  {
    ListingLineNumber(points, i);
    ListingLineNumber(points, j);
    HeaderNumbers();
  }

  // ---------------------------------------------------------------------------
  // Reading the listing back

  /** A piece of text `ParseInt` accepts: an optional minus sign, then digits. */
  predicate IsIntText(s: string)
  {
    (forall k :: 0 < k < |s| ==> IsDigit(s[k])) && (s != [] && s[0] != '-' ==> IsDigit(s[0]))
  }

  function ParseValue(s: string): int
  {
    if IsIntText(s) then ParseInt(s) else 0
  }

  /** The values of the comma-separated items of a row text. */
  function ParseItems(items: seq<string>): (vs: seq<int>)
    ensures |vs| == |items|
    ensures forall i :: 0 <= i < |items| ==> vs[i] == ParseValue(items[i])
  {
    seq(|items|, i requires 0 <= i < |items| => ParseValue(items[i]))
  }

  /** The values a BASIC `read` takes from one line: none unless the line is
      `<number> data <items> \n`, else the items split at commas. */
  function DataValues(line: string): seq<int>
  {
    var body := line[|LeadingDigits(line)|..];
    if |body| >= 8 && body[..6] == " data " && body[|body| - 2..] == " \n"
    then ParseItems(Split(body[6..|body| - 2], ','))
    else []
  }

  /** The values of every line of a listing, in order: what the header's loop reads. */
  function ReadData(lines: seq<string>): seq<int>
  {
    if lines == [] then [] else ReadData(lines[..|lines| - 1]) + DataValues(lines[|lines| - 1])
  }

  /** Reading two runs of lines is reading the first, then the second. */
  lemma {:induction false} ReadDataAppend(a: seq<string>, b: seq<string>)
    ensures ReadData(a + b) == ReadData(a) + ReadData(b)
    decreases |b|
  {
    if b != [] {
      var n := |b| - 1;
      assert (a + b)[..|a + b| - 1] == a + b[..n];
      ReadDataAppend(a, b[..n]);
    } else {
      assert a + b == a;
    }
  }

  /** The items of a data line are the text between ` data ` and ` \n`. */
  lemma DataValuesOfLine(number: nat, text: string)
    ensures DataValues(NatToDecimal(number) + " data " + text + " \n") == ParseItems(Split(text, ','))
  {
    var n := NatToDecimal(number);
    var body := " data " + text + " \n";
    var line := n + " data " + text + " \n";
    assert line == n + body;
    LeadingDigitsOf(n, body);
    assert line[|n|..] == body;
    assert body[..6] == " data " && body[|body| - 2..] == " \n" && body[6..|body| - 2] == text;
  }

  /** Splitting a row text at commas and parsing the items gives the row back. */
  lemma RowTextReadsBack(row: seq<int>)
    requires row != []
    ensures ParseItems(Split(FormatRow(row), ',')) == row
  {
    FormatRowIsCommaJoin(row);
    var ds := Decimals(row);
    DecimalsArePlain(row);
    SplitJoin(ds, ',');
    forall i | 0 <= i < |row| ensures ParseValue(ds[i]) == row[i] {
      IntDecimalRoundTrip(row[i]);
    }
  }

  /** Reading back a data line gives the row that was written into it. */
  lemma DataLineReadsBack(k: nat, row: seq<int>)
    requires row != []
    ensures DataValues(DataLine(k, row)) == row
  {
    DataValuesOfLine(FirstLineNumber + LineStep * k, FormatRow(row));
    RowTextReadsBack(row);
  }

  /** A line whose statement does not start with `d` carries no data. */
  lemma NonDataLineReadsNothing(l: BasicLine)
    requires l.statement == [] || l.statement[0] != 'd'
    ensures DataValues(RenderLine(l)) == []
  {
    var line := RenderLine(l);
    var d := NatToDecimal(l.number);
    var rest := " " + l.statement + "\n";
    assert line[|LeadingDigits(line)|..] == rest by {
      assert line == d + rest;
      LeadingDigitsOf(d, rest);
    }
    assert |rest| < 8 || rest[..6] != " data " by {
      if |rest| >= 8 {
        assert rest[..6][1] == rest[1] == l.statement[0];
      }
    }
  }

  /** No header line carries data. */
  lemma HeaderReadsNothing()
    ensures ReadData(HeaderLines()) == []
  {
    forall i | 0 <= i < |HeaderProgram| ensures DataValues(HeaderLines()[i]) == [] {
      NonDataLineReadsNothing(HeaderProgram[i]);
    }
    ReadNothing(HeaderLines());
  }

  /** Lines none of which carries data give no values. */
  lemma {:induction false} ReadNothing(lines: seq<string>)
    requires forall i :: 0 <= i < |lines| ==> DataValues(lines[i]) == []
    ensures ReadData(lines) == []
    decreases |lines|
  {
    if lines != [] {
      ReadNothing(lines[..|lines| - 1]);
    }
  }

  /** Reading the values of a run of data lines is concatenating their rows. */
  lemma {:induction false} ReadDataLines(rows: seq<seq<int>>)
    requires forall k :: 0 <= k < |rows| ==> rows[k] != []
    ensures ReadData(DataLines(rows)) == Concat(rows)
    decreases |rows|
  {
    if rows != [] {
      var n := |rows| - 1;
      assert DataLines(rows)[..n] == DataLines(rows[..n]);
      ReadDataLines(rows[..n]);
      DataLineReadsBack(n, rows[n]);
    }
  }

  /** The listing carries exactly the points: reading every `data` item in order, as the
      header's loop does, gives back the points that were written. */
  lemma ListingReadsBack(points: seq<int>)
    ensures ReadData(ListingLines(points)) == points
  {
    var rows := Chunk(points, RowSize);
    assert ListingLines(points) == HeaderLines() + DataLines(rows);
    ReadDataAppend(HeaderLines(), DataLines(rows));
    HeaderReadsNothing();
    ReadDataLines(rows);
    ChunkConcat(points, RowSize);
  }

  // ---------------------------------------------------------------------------
  // The listing for concrete points

  /** A full image of 1000 points gives 50 data lines of 20 values, numbered 1000 to 1490. */
  lemma FullImageListing(points: seq<int>)
    requires |points| == 1000
    ensures |ListingLines(points)| == |HeaderProgram| + 50
    ensures forall k :: 0 <= k < 50 ==> |Chunk(points, RowSize)[k]| == RowSize
    ensures LineNumber(ListingLines(points)[|HeaderProgram| + 49]) == 1490
  {
    ChunkShape(points, RowSize);
    var rows := Chunk(points, RowSize);
    var r := |rows|;
    assert 1000 <= 20 * r && 20 * (r - 1) < 1000;
    assert r == 50;
    forall k | 0 <= k < 50 ensures |rows[k]| == RowSize {
      if k == 49 {
        assert |rows[49]| == 1000 - 20 * 49;
      }
    }
    DataLineNumber(49, rows[49]);
  }
}
