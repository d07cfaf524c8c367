/** The listing for concrete points: the rendering of single-digit rows, and the points
    0 to 9 as the first and only row. */
module ListingExamples {
  import opened Text
  import opened Basic
  import opened Listing

  /** The row text of points that are single digits: the digits separated by commas. */
  function DigitsText(row: seq<int>): string
    requires forall i :: 0 <= i < |row| ==> 0 <= row[i] < 10
  {
    if row == [] then []
    else if |row| == 1 then [DigitChar(row[0])]
    else [DigitChar(row[0]), ','] + DigitsText(row[1..])
  }

  /** For points that are single digits the row text is the digits separated by commas. */
  lemma {:induction false} DigitRowText(row: seq<int>)
    requires forall i :: 0 <= i < |row| ==> 0 <= row[i] < 10
    ensures Join(Decimals(row), ",") == DigitsText(row)
    decreases |row|
  {
    if |row| >= 2 {
      DigitRowText(row[1..]);
      assert Decimals(row)[1..] == Decimals(row[1..]);
    }
  }

  /** Position by position: digit `i` at position `2i`, commas in between. */
  lemma {:induction false} DigitsTextShape(row: seq<int>)
    requires row != []
    requires forall i :: 0 <= i < |row| ==> 0 <= row[i] < 10
    ensures |DigitsText(row)| == 2 * |row| - 1
    ensures forall k :: 0 <= k < |DigitsText(row)| ==>
      DigitsText(row)[k] == if k % 2 == 0 then DigitChar(row[k / 2]) else ','
    decreases |row|
  {
    if |row| >= 2 {
      DigitsTextShape(row[1..]);
      var t, rest := DigitsText(row), DigitsText(row[1..]);
      assert t == [DigitChar(row[0]), ','] + rest;
      forall k | 2 <= k < |t| ensures t[k] == if k % 2 == 0 then DigitChar(row[k / 2]) else ',' {
        assert t[k] == rest[k - 2];
        assert (k - 2) % 2 == k % 2 && (k - 2) / 2 == k / 2 - 1;
      }
    }
  }

  /** The text of the row 0, 1, ..., 9. */
  lemma RowTextExample(row: seq<int>)
    requires row == [0, 1, 2, 3, 4, 5, 6, 7, 8, 9]
    ensures Join(Decimals(row), ",") == "0,1,2,3,4,5,6,7,8,9"
  {
    DigitRowText(row);
    DigitsOfZeroToNine(row);
  }

  lemma DigitsOfZeroToNine(row: seq<int>)
    requires row == [0, 1, 2, 3, 4, 5, 6, 7, 8, 9]
    ensures DigitsText(row) == "0,1,2,3,4,5,6,7,8,9"
  {
    DigitsTextShape(row);
  }

  /** The first data line is numbered 1000. */
  lemma FirstDataLine(row: seq<int>)
    ensures DataLine(0, row) == "1000" + " data " + Join(Decimals(row), ",") + " \n"
  {
    FormatRowIsCommaJoin(row);
    FirstNumberText();
  }

  lemma FirstNumberText()
    ensures NatToDecimal(FirstLineNumber + LineStep * 0) == "1000"
  {
    assert NatToDecimal(100) == "100";
  }

  /** The data line for the points 0 to 9 as the first row. */
  lemma TenPointsDataLine(row: seq<int>)
    requires row == [0, 1, 2, 3, 4, 5, 6, 7, 8, 9]
    ensures DataLine(0, row) == "1000" + " data " + "0,1,2,3,4,5,6,7,8,9" + " \n"
  {
    RowTextExample(row);
    FirstDataLine(row);
  }

  /** Ten points make the header and that one data line. */
  lemma TenPointsListing(points: seq<int>)
    requires points == [0, 1, 2, 3, 4, 5, 6, 7, 8, 9]
    ensures ListingLines(points) == HeaderLines() + ["1000" + " data " + "0,1,2,3,4,5,6,7,8,9" + " \n"]
  {
    assert Chunk(points, RowSize) == [points];
    TenPointsDataLine(points);
    var lines := ListingLines(points);
    assert lines == lines[..|HeaderProgram|] + [lines[|HeaderProgram|]];
  }
}
