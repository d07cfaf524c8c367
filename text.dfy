/** The parts of Go's `fmt` and `strings` packages the listing emitter relies on:
    decimal rendering of integers (`%d`, `fmt.Sprint`), `strings.Fields`,
    `strings.Join` and `strings.Trim`; plus `strings.Split` and decimal parsing,
    their inverses, used to state what the emitted text means. */
module Text {
  import opened Seqs

  predicate IsDigit(c: char) { '0' <= c <= '9' }

  predicate AllDigits(s: string) { forall i :: 0 <= i < |s| ==> IsDigit(s[i]) }

  /** A character that can occur in a decimal rendering of an `int`. */
  predicate IsDecimalChar(c: char) { IsDigit(c) || c == '-' }

  /** The white space `strings.Fields` splits at, restricted to Latin-1
      (`unicode.IsSpace` on code points below 0x100). */
  predicate IsSpace(c: char)
  {
    c == ' ' || c == '\t' || c == '\n' || c == '\U{000B}' || c == '\U{000C}' || c == '\r'
    || c == '\U{0085}' || c == '\U{00A0}'
  }

  predicate NoSpace(s: string) { forall i :: 0 <= i < |s| ==> !IsSpace(s[i]) }

  /** No character of `s` is in `cut`. */
  predicate NoneIn(s: string, cut: string) { forall i :: 0 <= i < |s| ==> s[i] !in cut }

  function DigitChar(d: nat): (c: char)
    requires d < 10
    ensures IsDigit(c) && DigitValue(c) == d
  {
    (('0' as int) + d) as char
  }

  function DigitValue(c: char): (d: nat)
    requires IsDigit(c)
    ensures d < 10
  {
    (c as int) - ('0' as int)
  }

  // ---------------------------------------------------------------------------
  // Decimal rendering and parsing

  /** The decimal rendering of a natural number, most significant digit first. */
  function NatToDecimal(n: nat): (s: string)
    ensures |s| >= 1 && AllDigits(s)
    ensures s[0] == '0' ==> n == 0
    decreases n
  {
    if n < 10 then [DigitChar(n)] else NatToDecimal(n / 10) + [DigitChar(n % 10)]
  }

  /** The decimal rendering Go's `%d` and `fmt.Sprint` give an `int`: a minus sign for negatives. */
  function IntToDecimal(i: int): (s: string)
    ensures |s| >= 1 && IsDigit(s[|s| - 1])
    ensures (s[0] == '-') <==> (i < 0)
    ensures forall k :: 0 <= k < |s| ==> IsDecimalChar(s[k])
  {
    if i < 0 then "-" + NatToDecimal(-i) else NatToDecimal(i)
  }

  /** The value of a string of decimal digits. */
  function DecimalValue(s: string): nat
    requires AllDigits(s)
  {
    if s == [] then 0 else DecimalValue(s[..|s| - 1]) * 10 + DigitValue(s[|s| - 1])
  }

  /** The value of an optional minus sign followed by decimal digits. */
  function ParseInt(s: string): int
    requires forall k :: 0 < k < |s| ==> IsDigit(s[k])
    requires s != [] && s[0] != '-' ==> IsDigit(s[0])
  {
    if s != [] && s[0] == '-' then -(DecimalValue(s[1..]) as int) else DecimalValue(s)
  }

  /** Parsing a rendered natural number gives the number back. */
  lemma {:induction false} NatDecimalRoundTrip(n: nat)
    ensures DecimalValue(NatToDecimal(n)) == n
    decreases n
  {
    if n >= 10 {
      var s := NatToDecimal(n);
      assert s[..|s| - 1] == NatToDecimal(n / 10);
      NatDecimalRoundTrip(n / 10);
    }
  }

  /** Parsing a rendered integer gives the integer back. */
  lemma IntDecimalRoundTrip(i: int)
    ensures ParseInt(IntToDecimal(i)) == i
  {
    if i < 0 {
      assert IntToDecimal(i)[1..] == NatToDecimal(-i);
      NatDecimalRoundTrip(-i);
    } else {
      NatDecimalRoundTrip(i);
    }
  }

  /** Rendering is injective: distinct numbers have distinct renderings. */
  lemma IntDecimalInjective(i: int, j: int)
    ensures IntToDecimal(i) == IntToDecimal(j) <==> i == j
  {
    IntDecimalRoundTrip(i);
    IntDecimalRoundTrip(j);
  }

  /** The longest prefix of `s` made of decimal digits. */
  function LeadingDigits(s: string): (d: string)
    ensures |d| <= |s| && d == s[..|d|] && AllDigits(d)
    ensures |d| < |s| ==> !IsDigit(s[|d|])
  {
    if s != [] && IsDigit(s[0]) then [s[0]] + LeadingDigits(s[1..]) else []
  }

  /** Digits followed by a non-digit: the leading digits are exactly those digits. */
  lemma {:induction false} LeadingDigitsOf(d: string, rest: string)
    requires AllDigits(d)
    requires rest != [] ==> !IsDigit(rest[0])
    ensures LeadingDigits(d + rest) == d
    decreases |d|
  {
    if d == [] {
      assert d + rest == rest;
    } else {
      assert (d + rest)[0] == d[0];
      assert (d + rest)[1..] == d[1..] + rest;
      LeadingDigitsOf(d[1..], rest);
      assert [d[0]] + d[1..] == d;
    }
  }

  // ---------------------------------------------------------------------------
  // strings.Join

  /** `strings.Join(elems, sep)`. */
  function Join(elems: seq<string>, sep: string): string
  {
    if |elems| == 0 then ""
    else if |elems| == 1 then elems[0]
    else elems[0] + sep + Join(elems[1..], sep)
  }

  /** A join of non-empty pieces none of whose characters, nor the separator's, is in `cut`. */
  lemma {:induction false} JoinNoneIn(elems: seq<string>, sep: string, cut: string)
    requires |elems| >= 1
    requires forall i :: 0 <= i < |elems| ==> elems[i] != [] && NoneIn(elems[i], cut)
    requires NoneIn(sep, cut)
    ensures Join(elems, sep) != [] && NoneIn(Join(elems, sep), cut)
    decreases |elems|
  {
    if |elems| > 1 {
      JoinNoneIn(elems[1..], sep, cut);
      var j := Join(elems, sep);
      var a, b := elems[0] + sep, Join(elems[1..], sep);
      assert j == a + b;
      forall k | 0 <= k < |j| ensures j[k] !in cut {
        if k < |elems[0]| {
          assert j[k] == elems[0][k];
        } else if k < |a| {
          assert j[k] == sep[k - |elems[0]|];
        } else {
          assert j[k] == b[k - |a|];
        }
      }
    }
  }

  // ---------------------------------------------------------------------------
  // strings.Fields

  /** `strings.Fields`, scanning left to right with the field read so far in `cur`. */
  function FieldsFrom(s: string, cur: string): (fields: seq<string>)
    requires NoSpace(cur)
    ensures forall i :: 0 <= i < |fields| ==> fields[i] != [] && NoSpace(fields[i])
    decreases |s|
  {
    if s == [] then (if cur == [] then [] else [cur])
    else if IsSpace(s[0]) then (if cur == [] then [] else [cur]) + FieldsFrom(s[1..], [])
    else FieldsFrom(s[1..], cur + [s[0]])
  }

  /** `strings.Fields(s)`: the maximal runs of non-space characters of `s`, in order. */
  function Fields(s: string): (fields: seq<string>)
    ensures forall i :: 0 <= i < |fields| ==> fields[i] != [] && NoSpace(fields[i])
  {
    FieldsFrom(s, [])
  }

  /** The text with its white space removed. */
  function Unspaced(s: string): string
  {
    if s == [] then [] else (if IsSpace(s[0]) then [] else [s[0]]) + Unspaced(s[1..])
  }

  /** Appending a non-space character to a field keeps it free of white space. */
  lemma NoSpaceSnoc(cur: string, c: char)
    requires NoSpace(cur) && !IsSpace(c)
    ensures NoSpace(cur + [c])
  {
    assert forall i :: 0 <= i < |cur + [c]| ==> (cur + [c])[i] == if i < |cur| then cur[i] else c;
  }

  /** The fields, laid end to end, are the field read so far and the rest of the text
      without its white space. */
  lemma {:induction false} FieldsFromConcat(s: string, cur: string)
    requires NoSpace(cur)
    ensures Concat(FieldsFrom(s, cur)) == cur + Unspaced(s)
    decreases |s|
  {
    if s == [] {
      ConcatOfField(cur);
      assert cur + [] == cur;
    } else if IsSpace(s[0]) {
      var fs := FieldsFrom(s[1..], []);
      assert Concat(fs) == Unspaced(s[1..]) by {
        FieldsFromConcat(s[1..], []);
        assert [] + Unspaced(s[1..]) == Unspaced(s[1..]);
      }
      assert Concat(FieldsFrom(s, cur)) == cur + Concat(fs) by {
        ConcatOfField(cur);
        ConcatAppend(if cur == [] then [] else [cur], fs);
      }
    } else {
      NoSpaceSnoc(cur, s[0]);
      FieldsFromConcat(s[1..], cur + [s[0]]);
      assert (cur + [s[0]]) + Unspaced(s[1..]) == cur + ([s[0]] + Unspaced(s[1..]));
    }
  }

  /** The field read so far, as a list of at most one field. */
  lemma ConcatOfField(cur: string)
    ensures Concat(if cur == [] then [] else [cur]) == cur
  {
    if cur != [] {
      ConcatCons(cur, []);
      assert [cur] + [] == [cur] && cur + [] == cur;
    }
  }

  /** `strings.Fields` drops exactly the white space: its fields, laid end to end, are the
      text's non-space characters in order. */
  lemma FieldsConcat(s: string)
    ensures Concat(Fields(s)) == Unspaced(s)
  {
    FieldsFromConcat(s, []);
    assert [] + Unspaced(s) == Unspaced(s);
  }

  /** A white-space character ends the field being read: what follows it is split on its own. */
  lemma {:induction false} FieldsFromAtSpace(a: string, sp: char, b: string, cur: string)
    requires IsSpace(sp) && NoSpace(cur)
    ensures FieldsFrom(a + [sp] + b, cur) == FieldsFrom(a, cur) + FieldsFrom(b, [])
    decreases |a|
  {
    var t := a + [sp] + b;
    if a == [] {
      assert t == [sp] + b && t[1..] == b;
    } else {
      assert t[0] == a[0] && t[1..] == a[1..] + [sp] + b;
      if IsSpace(a[0]) {
        FieldsFromAtSpace(a[1..], sp, b, []);
        var pre: seq<string> := if cur == [] then [] else [cur];
        var fa, fb := FieldsFrom(a[1..], []), FieldsFrom(b, []);
        assert pre + (fa + fb) == (pre + fa) + fb;
      } else {
        NoSpaceSnoc(cur, a[0]);
        FieldsFromAtSpace(a[1..], sp, b, cur + [a[0]]);
      }
    }
  }

  /** `strings.Fields` splits at every white-space character: the fields of `a`, a space and
      `b` are the fields of `a` followed by the fields of `b`. */
  lemma FieldsAtSpace(a: string, sp: char, b: string)
    requires IsSpace(sp)
    ensures Fields(a + [sp] + b) == Fields(a) + Fields(b)
  {
    FieldsFromAtSpace(a, sp, b, []);
  }

  /** A non-empty run of non-space characters is a single field. */
  lemma FieldsOfWord(w: string)
    requires w != [] && NoSpace(w)
    ensures Fields(w) == [w]
  {
    FieldsSkipWord(w, [], []);
    assert w + [] == w && [] + w == w;
  }

  /** A run of non-space characters extends the current field. */
  lemma {:induction false} FieldsSkipWord(w: string, rest: string, cur: string)
    requires NoSpace(w) && NoSpace(cur)
    ensures NoSpace(cur + w)
    ensures FieldsFrom(w + rest, cur) == FieldsFrom(rest, cur + w)
    decreases |w|
  {
    assert forall i :: 0 <= i < |cur + w| ==> (cur + w)[i] == if i < |cur| then cur[i] else w[i - |cur|];
    if w == [] {
      assert w + rest == rest && cur + w == cur;
    } else {
      assert (w + rest)[0] == w[0];
      assert (w + rest)[1..] == w[1..] + rest;
      assert (cur + [w[0]]) + w[1..] == cur + w;
      assert NoSpace(cur + [w[0]]) by {
        assert forall i :: 0 <= i < |cur + [w[0]]| ==> (cur + [w[0]])[i] == if i < |cur| then cur[i] else w[0];
      }
      FieldsSkipWord(w[1..], rest, cur + [w[0]]);
    }
  }

  /** The fields of `open + ws[0] + " " + ws[1] + ... + " " + ws[n-1] + close`: the words,
      with `open` glued to the first and `close` to the last. */
  function Bracketed(ws: seq<string>, open: string, close: string): (r: seq<string>)
    requires |ws| >= 1
    ensures |r| == |ws|
    decreases |ws|
  {
    if |ws| == 1 then [open + ws[0] + close]
    else [open + ws[0]] + Bracketed(ws[1..], "", close)
  }

  /** Splitting a space-joined list of words at white space gives the words back. */
  lemma {:induction false} FieldsOfSpaceJoin(ws: seq<string>, cur: string, tail: string)
    requires |ws| >= 1
    requires forall i :: 0 <= i < |ws| ==> ws[i] != [] && NoSpace(ws[i])
    requires NoSpace(cur) && NoSpace(tail)
    ensures FieldsFrom(Join(ws, " ") + tail, cur) == Bracketed(ws, cur, tail)
    decreases |ws|
  {
    if |ws| == 1 {
      FieldsSkipWord(ws[0], tail, cur);
      FieldsSkipWord(tail, [], cur + ws[0]);
      assert tail + [] == tail;
      assert (cur + ws[0]) + tail == cur + ws[0] + tail;
    } else {
      var rest := Join(ws[1..], " ") + tail;
      assert Join(ws, " ") + tail == ws[0] + (" " + rest);
      FieldsSkipWord(ws[0], " " + rest, cur);
      assert (" " + rest)[1..] == rest;
      FieldsOfSpaceJoin(ws[1..], [], tail);
      assert [] + ws[0] == ws[0];
    }
  }

  /** Joining the bracketed words puts the brackets around the joined words. */
  lemma {:induction false} JoinBracketed(ws: seq<string>, open: string, close: string, sep: string)
    requires |ws| >= 1
    ensures Join(Bracketed(ws, open, close), sep) == open + Join(ws, sep) + close
    decreases |ws|
  {
    if |ws| > 1 {
      var b := Bracketed(ws, open, close);
      assert b[1..] == Bracketed(ws[1..], "", close);
      JoinBracketed(ws[1..], "", close, sep);
      assert [] + Join(ws[1..], sep) == Join(ws[1..], sep);
    }
  }

  // ---------------------------------------------------------------------------
  // strings.Trim

  /** `strings.TrimLeft(s, cut)`. */
  function TrimLeft(s: string, cut: string): (r: string)
    ensures |r| <= |s| && r == s[|s| - |r|..]
    ensures forall k :: 0 <= k < |s| - |r| ==> s[k] in cut
    ensures r != [] ==> r[0] !in cut
  {
    if s != [] && s[0] in cut then TrimLeft(s[1..], cut) else s
  }

  /** `strings.TrimRight(s, cut)`. */
  function TrimRight(s: string, cut: string): (r: string)
    ensures |r| <= |s| && r == s[..|r|]
    ensures forall k :: |r| <= k < |s| ==> s[k] in cut
    ensures r != [] ==> r[|r| - 1] !in cut
  {
    if s != [] && s[|s| - 1] in cut then TrimRight(s[..|s| - 1], cut) else s
  }

  /** `strings.Trim(s, cut)`: every leading and trailing character in `cut` removed. */
  function Trim(s: string, cut: string): string
  {
    TrimRight(TrimLeft(s, cut), cut)
  }

  /** Trimming a non-empty string wrapped in one cut character on each side leaves the string. */
  lemma TrimWrapped(open: char, s: string, close: char, cut: string)
    requires open in cut && close in cut
    requires s != [] && s[0] !in cut && s[|s| - 1] !in cut
    ensures Trim([open] + s + [close], cut) == s
  {
    assert [open] + s + [close] == [open] + (s + [close]);
    TrimLeftOne(open, s + [close], cut);
    TrimRightOne(s, close, cut);
  }

  /** One cut character before a string that starts outside `cut` is all `TrimLeft` removes. */
  lemma TrimLeftOne(c: char, t: string, cut: string)
    requires c in cut && t != [] && t[0] !in cut
    ensures TrimLeft([c] + t, cut) == t
  {
    assert ([c] + t)[1..] == t;
  }

  /** One cut character after a string that ends outside `cut` is all `TrimRight` removes. */
  lemma TrimRightOne(s: string, c: char, cut: string)
    requires c in cut && s != [] && s[|s| - 1] !in cut
    ensures TrimRight(s + [c], cut) == s
  {
    assert (s + [c])[..|s|] == s;
  }

  // ---------------------------------------------------------------------------
  // strings.Split, the inverse of Join

  /** `strings.Split(s, sep)` for a one-character separator, with the piece read so far in `cur`. */
  function SplitFrom(s: string, sep: char, cur: string): (parts: seq<string>)
    ensures |parts| >= 1
    decreases |s|
  {
    if s == [] then [cur]
    else if s[0] == sep then [cur] + SplitFrom(s[1..], sep, [])
    else SplitFrom(s[1..], sep, cur + [s[0]])
  }

  function Split(s: string, sep: char): seq<string>
  {
    SplitFrom(s, sep, [])
  }

  lemma {:induction false} SplitSkipWord(w: string, rest: string, sep: char, cur: string)
    requires sep !in w
    ensures SplitFrom(w + rest, sep, cur) == SplitFrom(rest, sep, cur + w)
    decreases |w|
  {
    if w == [] {
      assert w + rest == rest && cur + w == cur;
    } else {
      assert (w + rest)[0] == w[0];
      assert (w + rest)[1..] == w[1..] + rest;
      assert (cur + [w[0]]) + w[1..] == cur + w;
      SplitSkipWord(w[1..], rest, sep, cur + [w[0]]);
    }
  }

  /** Splitting a joined list at the separator gives the list back, when no piece holds the separator. */
  lemma {:induction false} SplitJoin(ws: seq<string>, sep: char)
    requires |ws| >= 1
    requires forall i :: 0 <= i < |ws| ==> sep !in ws[i]
    ensures Split(Join(ws, [sep]), sep) == ws
    decreases |ws|
  {
    if |ws| == 1 {
      SplitSkipWord(ws[0], [], sep, []);
      assert ws[0] + [] == ws[0] && [] + ws[0] == ws[0];
    } else {
      var rest := Join(ws[1..], [sep]);
      assert Join(ws, [sep]) == ws[0] + ([sep] + rest);
      SplitSkipWord(ws[0], [sep] + rest, sep, []);
      assert ([sep] + rest)[1..] == rest;
      SplitJoin(ws[1..], sep);
      assert [] + ws[0] == ws[0];
    }
  }
}
