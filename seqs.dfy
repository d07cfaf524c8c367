/** Sequence helpers shared by the listing emitter and the pixel flattening. */
module Seqs {

  /** The concatenation of a sequence of sequences, in order
      (Go's repeated `append`, or the text written line after line). */
  function Concat<T>(ss: seq<seq<T>>): seq<T>
  {
    if ss == [] then [] else Concat(ss[..|ss| - 1]) + ss[|ss| - 1]
  }

  /** Extending the sequence by one piece extends the concatenation by that piece. */
  lemma ConcatSnoc<T>(ss: seq<seq<T>>, s: seq<T>)
    ensures Concat(ss + [s]) == Concat(ss) + s
  {
    assert (ss + [s])[..|ss|] == ss;
  }

  /** Concatenation distributes over `+`. */
  lemma {:induction false} ConcatAppend<T>(a: seq<seq<T>>, b: seq<seq<T>>)
    ensures Concat(a + b) == Concat(a) + Concat(b)
    decreases |b|
  {
    if b == [] {
      assert a + b == a;
    } else {
      var b' := b[..|b| - 1];
      assert a + b == (a + b') + [b[|b| - 1]];
      assert b == b' + [b[|b| - 1]];
      ConcatSnoc(a + b', b[|b| - 1]);
      ConcatAppend(a, b');
      ConcatSnoc(b', b[|b| - 1]);
    }
  }

  /** Concatenation of a sequence built from a head piece and a tail. */
  lemma ConcatCons<T>(s: seq<T>, ss: seq<seq<T>>)
    ensures Concat([s] + ss) == s + Concat(ss)
  {
    ConcatAppend([s], ss);
    assert Concat([s]) == Concat([]) + s;
  }

  /** The concatenation of eight pieces. */
  lemma ConcatEight<T>(a: seq<T>, b: seq<T>, c: seq<T>, d: seq<T>, e: seq<T>, f: seq<T>, g: seq<T>, h: seq<T>)
    ensures Concat([a, b, c, d, e, f, g, h]) == a + b + c + d + e + f + g + h
  {
    assert [a, b, c, d, e, f, g, h][..7] == [a, b, c, d, e, f, g];
    assert Concat([a, b, c, d, e, f, g, h]) == Concat([a, b, c, d, e, f, g]) + h;
    assert [a, b, c, d, e, f, g][..6] == [a, b, c, d, e, f];
    assert Concat([a, b, c, d, e, f, g]) == Concat([a, b, c, d, e, f]) + g;
    assert [a, b, c, d, e, f][..5] == [a, b, c, d, e];
    assert Concat([a, b, c, d, e, f]) == Concat([a, b, c, d, e]) + f;
    assert [a, b, c, d, e][..4] == [a, b, c, d];
    assert Concat([a, b, c, d, e]) == Concat([a, b, c, d]) + e;
    assert [a, b, c, d][..3] == [a, b, c];
    assert Concat([a, b, c, d]) == Concat([a, b, c]) + d;
    assert [a, b, c][..2] == [a, b];
    assert Concat([a, b, c]) == Concat([a, b]) + c;
    assert [a, b][..1] == [a];
    assert Concat([a, b]) == Concat([a]) + b;
    assert [a][..0] == [];
    assert Concat([a]) == Concat([]) + a;
  }

  /** The length of a concatenation is the sum of the piece lengths: here, pieces of a common length. */
  lemma {:induction false} ConcatUniformLength<T>(ss: seq<seq<T>>, w: nat)
    requires forall i :: 0 <= i < |ss| ==> |ss[i]| == w
    ensures |Concat(ss)| == w * |ss|
    decreases |ss|
  {
    if ss != [] {
      ConcatUniformLength(ss[..|ss| - 1], w);
    }
  }

  /** Position `w * i + j` of the concatenation of pieces of length `w` is position `j` of piece `i`. */
  lemma {:induction false} ConcatUniformAt<T>(ss: seq<seq<T>>, w: nat, i: nat, j: nat)
    requires forall k :: 0 <= k < |ss| ==> |ss[k]| == w
    requires i < |ss| && j < w
    ensures w * i + j < |Concat(ss)|
    ensures Concat(ss)[w * i + j] == ss[i][j]
    decreases |ss|
  {
    var front := ss[..|ss| - 1];
    ConcatUniformLength(front, w);
    ConcatUniformLength(ss, w);
    if i < |ss| - 1 {
      ConcatUniformAt(front, w, i, j);
      assert w * i + j < w * |front| by {
        assert w * i + j < w * i + w == w * (i + 1);
        MulMonotone(w, i + 1, |front|);
      }
    } else {
      assert w * i == w * |front|;
    }
  }

  /** A prefix one longer is the prefix followed by the next element. */
  lemma PrefixSnoc<T>(s: seq<T>, n: nat)
    requires n < |s|
    ensures s[..n + 1] == s[..n] + [s[n]]
  {
  }

  /** The concatenation of a prefix one longer adds the next piece. */
  lemma ConcatPrefixSnoc<T>(ss: seq<seq<T>>, n: nat)
    requires n < |ss|
    ensures Concat(ss[..n + 1]) == Concat(ss[..n]) + ss[n]
  {
    PrefixSnoc(ss, n);
    ConcatSnoc(ss[..n], ss[n]);
  }

  lemma MulMonotone(w: nat, a: nat, b: nat)
    requires a <= b
    ensures w * a <= w * b
  {
  }
}
