/** The BASIC side of the listing: numbered lines, their text, and the fixed 8-line `header`
    program that pokes a reverse-space character into every screen cell and reads each cell's
    colour from the `data` statements that follow it. */
module Basic {
  import opened Seqs
  import opened Text

  /** A numbered BASIC line: its number and its statement. */
  datatype BasicLine = BasicLine(number: nat, statement: string)

  /** The text of a BASIC line: number, space, statement, newline. */
  function RenderLine(l: BasicLine): string
  {
    NatToDecimal(l.number) + " " + l.statement + "\n"
  }

  /** The `header` constant's eight lines. */
  const HeaderProgram: seq<BasicLine> := [
    BasicLine(10, "for y = 0 to 24"),
    BasicLine(20, "for x = 0 to 39"),
    BasicLine(30, "o = 40 * y + x"),
    BasicLine(40, "poke 1024 + o, 160"),
    BasicLine(45, "read c"),
    BasicLine(50, "poke 55296 + o, c"),
    BasicLine(60, "next x,y"),
    BasicLine(70, "goto 70")
  ]

  /** The header, one string per line. */
  function HeaderLines(): (lines: seq<string>)
    ensures |lines| == |HeaderProgram|
    ensures forall i :: 0 <= i < |HeaderProgram| ==> lines[i] == RenderLine(HeaderProgram[i])
  {
    seq(|HeaderProgram|, i requires 0 <= i < |HeaderProgram| => RenderLine(HeaderProgram[i]))
  }

  /** The header as the single string written first. */
  function Header(): string
  {
    Concat(HeaderLines())
  }

  /** A two-digit line number renders as its tens digit and its units digit. */
  lemma TwoDigitNumber(n: nat, tens: char, units: char)
    requires 10 <= n < 100
    requires tens == DigitChar(n / 10) && units == DigitChar(n % 10)
    ensures NatToDecimal(n) == [tens, units]
  {
  }

  /** A line with a two-digit number: the two digits, a space, the statement, a newline. */
  lemma TwoDigitLine(n: nat, tens: char, units: char, s: string)
    requires 10 <= n < 100
    requires tens == DigitChar(n / 10) && units == DigitChar(n % 10)
    ensures RenderLine(BasicLine(n, s)) == [tens, units, ' '] + s + ['\n']
  {
    TwoDigitNumber(n, tens, units);
  }

  /** Each header line renders to its literal. */
  lemma HeaderLine10()
    ensures RenderLine(BasicLine(10, "for y = 0 to 24")) == "10 for y = 0 to 24\n"
  {
    var s, lit := "for y = 0 to 24", "10 for y = 0 to 24\n";
    TwoDigitLine(10, '1', '0', s);
    assert |['1', '0', ' '] + s + ['\n']| == |lit|;
    forall k | 0 <= k < |lit| ensures (['1', '0', ' '] + s + ['\n'])[k] == lit[k] {
    }
  }

  lemma HeaderLine20()
    ensures RenderLine(BasicLine(20, "for x = 0 to 39")) == "20 for x = 0 to 39\n"
  {
    var s, lit := "for x = 0 to 39", "20 for x = 0 to 39\n";
    TwoDigitLine(20, '2', '0', s);
    assert |['2', '0', ' '] + s + ['\n']| == |lit|;
    forall k | 0 <= k < |lit| ensures (['2', '0', ' '] + s + ['\n'])[k] == lit[k] {
    }
  }

  lemma HeaderLine30()
    ensures RenderLine(BasicLine(30, "o = 40 * y + x")) == "30 o = 40 * y + x\n"
  {
    var s, lit := "o = 40 * y + x", "30 o = 40 * y + x\n";
    TwoDigitLine(30, '3', '0', s);
    assert |['3', '0', ' '] + s + ['\n']| == |lit|;
    forall k | 0 <= k < |lit| ensures (['3', '0', ' '] + s + ['\n'])[k] == lit[k] {
    }
  }

  lemma HeaderLine40()
    ensures RenderLine(BasicLine(40, "poke 1024 + o, 160")) == "40 poke 1024 + o, 160\n"
  {
    var s, lit := "poke 1024 + o, 160", "40 poke 1024 + o, 160\n";
    TwoDigitLine(40, '4', '0', s);
    assert |['4', '0', ' '] + s + ['\n']| == |lit|;
    forall k | 0 <= k < |lit| ensures (['4', '0', ' '] + s + ['\n'])[k] == lit[k] {
    }
  }

  lemma HeaderLine45()
    ensures RenderLine(BasicLine(45, "read c")) == "45 read c\n"
  {
    var s, lit := "read c", "45 read c\n";
    TwoDigitLine(45, '4', '5', s);
    assert |['4', '5', ' '] + s + ['\n']| == |lit|;
    forall k | 0 <= k < |lit| ensures (['4', '5', ' '] + s + ['\n'])[k] == lit[k] {
    }
  }

  lemma HeaderLine50()
    ensures RenderLine(BasicLine(50, "poke 55296 + o, c")) == "50 poke 55296 + o, c\n"
  {
    var s, lit := "poke 55296 + o, c", "50 poke 55296 + o, c\n";
    TwoDigitLine(50, '5', '0', s);
    assert |['5', '0', ' '] + s + ['\n']| == |lit|;
    forall k | 0 <= k < |lit| ensures (['5', '0', ' '] + s + ['\n'])[k] == lit[k] {
    }
  }

  lemma HeaderLine60()
    ensures RenderLine(BasicLine(60, "next x,y")) == "60 next x,y\n"
  {
    var s, lit := "next x,y", "60 next x,y\n";
    TwoDigitLine(60, '6', '0', s);
    assert |['6', '0', ' '] + s + ['\n']| == |lit|;
    forall k | 0 <= k < |lit| ensures (['6', '0', ' '] + s + ['\n'])[k] == lit[k] {
    }
  }

  lemma HeaderLine70()
    ensures RenderLine(BasicLine(70, "goto 70")) == "70 goto 70\n"
  {
    var s, lit := "goto 70", "70 goto 70\n";
    TwoDigitLine(70, '7', '0', s);
    assert |['7', '0', ' '] + s + ['\n']| == |lit|;
    forall k | 0 <= k < |lit| ensures (['7', '0', ' '] + s + ['\n'])[k] == lit[k] {
    }
  }

  /** The header's numbers rise strictly from 10 to 70. */
  lemma HeaderNumbers()
    ensures forall i, j :: 0 <= i < j < |HeaderProgram| ==> HeaderProgram[i].number < HeaderProgram[j].number
    ensures forall i :: 0 <= i < |HeaderProgram| ==> 10 <= HeaderProgram[i].number <= 70
  {
  }
}
