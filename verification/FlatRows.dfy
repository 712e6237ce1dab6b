/** A matrix kept row after row in one buffer. */
module FlatRows {
  import opened Bits
  import opened Gf256
  import opened Vectors
  import opened Elimination
  import opened Memory

  /** Rows lo up to hi, one after the other. */
  ghost function Flat(a: Matrix, lo: nat, hi: nat): (s: seq<u8>)
    requires lo <= hi <= |a|
    decreases hi
  {
    if lo == hi then [] else Flat(a, lo, hi - 1) + a[hi - 1]
  }

  lemma {:induction false} FlatLength(a: Matrix, w: nat, lo: nat, hi: nat)
    requires lo <= hi <= |a| && Uniform(a, w)
    ensures |Flat(a, lo, hi)| == (hi - lo) * w
    decreases hi
  {
    if lo < hi {
      FlatLength(a, w, lo, hi - 1);
      assert (hi - lo) * w == (hi - 1 - lo) * w + w;
    }
  }

  lemma {:induction false} FlatSplit(a: Matrix, lo: nat, x: nat, hi: nat)
    requires lo <= x < hi <= |a|
    ensures Flat(a, lo, hi) == Flat(a, lo, x) + a[x] + Flat(a, x + 1, hi)
    decreases hi
  {
    if x < hi - 1 {
      FlatSplit(a, lo, x, hi - 1);
    }
  }

  lemma {:induction false} FlatUpdate(a: Matrix, x: nat, r: Row, lo: nat, hi: nat)
    requires lo <= hi <= |a| && x < |a|
    ensures x < lo || hi <= x ==> Flat(a[x := r], lo, hi) == Flat(a, lo, hi)
    ensures lo <= x < hi ==> Flat(a[x := r], lo, hi) == Flat(a, lo, x) + r + Flat(a, x + 1, hi)
    decreases hi
  {
    if lo < hi {
      FlatUpdate(a, x, r, lo, hi - 1);
    }
  }

  /** The buffer starts with the matrix a, whose rows are w long. */
  ghost predicate Holds(s: seq<u8>, a: Matrix, w: nat)
  {
    Uniform(a, w) && Flat(a, 0, |a|) <= s
  }

  lemma ProductStep(x: nat, n: nat, w: nat)
    requires x < n
    ensures 0 <= x * w <= x * w + w <= n * w
    ensures (x + 1) * w == x * w + w
  {
    ProductGrows(x, 1, w);
    ProductGrows(x + 1, n - x - 1, w);
  }

  /** Row x of the matrix, its place in the buffer, and what comes before and after. */
  lemma RowInBuffer(s: seq<u8>, a: Matrix, w: nat, x: nat)
    requires Holds(s, a, w) && x < |a|
    ensures 0 <= x * w <= x * w + w <= |a| * w <= |s|
    ensures s[x * w..x * w + w] == a[x]
    ensures s == Flat(a, 0, x) + a[x] + s[x * w + w..]
    ensures |Flat(a, 0, x)| == x * w
  {
    FlatLength(a, w, 0, |a|);
    FlatLength(a, w, 0, x);
    ProductStep(x, |a|, w);
    FlatSplit(a, 0, x, |a|);
    MiddleOfPrefix(s, Flat(a, 0, x), a[x], Flat(a, x + 1, |a|));
  }

  lemma MiddleOfPrefix(s: seq<u8>, f: seq<u8>, m: seq<u8>, tail: seq<u8>)
    requires f + m + tail <= s
    ensures |f| + |m| + |tail| <= |s|
    ensures s[|f|..|f| + |m|] == m
    ensures s == f + m + s[|f| + |m|..]
    ensures tail <= s[|f| + |m|..]
  {
    assert s == f + m + tail + s[|f + m + tail|..];
  }

  /** Replacing the bytes of row x replaces row x of the matrix. */
  lemma ReplaceRow(s: seq<u8>, a: Matrix, w: nat, x: nat, r: Row)
    requires Holds(s, a, w) && x < |a| && |r| == w
    requires 0 <= x * w && x * w + w <= |s|
    ensures Holds(Splice(s, x * w, r), a[x := r], w)
  {
    FlatLength(a, w, 0, x);
    FlatUpdate(a, x, r, 0, |a|);
    FlatSplit(a, 0, x, |a|);
    SpliceMiddle(s, Flat(a, 0, x), a[x], Flat(a, x + 1, |a|), r);
  }

  lemma SpliceMiddle(s: seq<u8>, f: seq<u8>, m: seq<u8>, tail: seq<u8>, r: seq<u8>)
    requires f + m + tail <= s && |r| == |m|
    ensures |f| + |m| <= |s| && f + r + tail <= Splice(s, |f|, r)
  {
    MiddleOfPrefix(s, f, m, tail);
    assert Splice(s, |f|, r) == f + r + s[|f| + |m|..];
  }

  /** Rows x and x + 1 have zeroes left of column x. */
  ghost predicate ClearLeft(a: Matrix, x: nat)
    requires Uniform(a, |a|) && x < |a|
  {
    forall j :: 0 <= j < x ==> a[x][j] == 0 && (x + 1 < |a| ==> a[x + 1][j] == 0)
  }

  /**
   Scaling w bytes from the diagonal entry of row x on scales row x when its entries before the
   diagonal are zero.  The bytes beyond the row that are scaled too are zero entries of the next
   row, or lie behind the matrix.
   */
  lemma ScaleFromDiagonal(s: seq<u8>, a: Matrix, w: nat, x: nat, off: nat, u: u8)
    requires Holds(s, a, w) && |a| == w && x < w && ClearLeft(a, x)
    requires off == RowStart(a, x) && off + x + w <= |s|
    ensures Holds(Splice(s, off + x, Scale(s[off + x..off + x + w], u)), a[x := Scale(a[x], u)], w)
  {
    FlatUpdate(a, x, Scale(a[x], u), 0, w);
    RowSpills(s, a, w, x, off, u);
  }

  lemma RowSpills(s: seq<u8>, a: Matrix, w: nat, x: nat, off: nat, u: u8)
    requires Holds(s, a, w) && |a| == w && x < w && ClearLeft(a, x)
    requires off == RowStart(a, x) && off + x + w <= |s|
    ensures Flat(a, 0, x) + Scale(a[x], u) + Flat(a, x + 1, w)
         <= Splice(s, off + x, Scale(s[off + x..off + x + w], u))
  {
    FlatSplit(a, 0, x, w);
    TailIsClear(a, x);
    SpillIsHarmless(s, Flat(a, 0, x), a[x], Flat(a, x + 1, w), x, u);
  }

  lemma TailIsClear(a: Matrix, x: nat)
    requires Uniform(a, |a|) && x < |a| && ClearLeft(a, x)
    ensures forall j :: 0 <= j < x ==> a[x][j] == 0 && (j < |Flat(a, x + 1, |a|)| ==> Flat(a, x + 1, |a|)[j] == 0)
  {
    TailStartsWithNextRow(a, |a|, x);
    var tail := Flat(a, x + 1, |a|);
    forall j | 0 <= j < x
      ensures a[x][j] == 0 && (j < |tail| ==> tail[j] == 0)
    {
      if x + 1 < |a| {
        assert tail[j] == a[x + 1][j];
      }
    }
  }

  lemma TailStartsWithNextRow(a: Matrix, w: nat, x: nat)
    requires Uniform(a, w) && x < |a|
    ensures x + 1 < |a| ==> a[x + 1] <= Flat(a, x + 1, |a|)
    ensures x + 1 == |a| ==> Flat(a, x + 1, |a|) == []
  {
    if x + 1 < |a| {
      FlatSplit(a, x + 1, x + 1, |a|);
    }
  }

  lemma SpillIsHarmless(s: seq<u8>, f: seq<u8>, m: Row, tail: seq<u8>, x: nat, u: u8)
    requires f + m + tail <= s && x <= |m| && |f| + x + |m| <= |s|
    requires forall j :: 0 <= j < x ==> m[j] == 0 && (j < |tail| ==> tail[j] == 0)
    ensures f + Scale(m, u) + tail <= Splice(s, |f| + x, Scale(s[|f| + x..|f| + x + |m|], u))
  {
    MiddleOfPrefix(s, f, m, tail);
    var rest := s[|f| + |m|..];
    var spill := Scale(s[|f| + x..|f| + x + |m|], u);
    var now := Splice(s, |f| + x, spill);
    MulZero(u);
    forall i | 0 <= i < |f| + |m| + |tail|
      ensures now[i] == (f + Scale(m, u) + tail)[i]
    {
      assert s[i] == (f + m + tail)[i];
    }
  }

  lemma CellInBuffer(s: seq<u8>, a: Matrix, w: nat, x: nat, j: nat)
    requires Holds(s, a, w) && x < |a| && j < w
    ensures 0 <= x * w && x * w + j < |s| && s[x * w + j] == a[x][j]
  {
    RowInBuffer(s, a, w, x);
  }

  lemma SpliceBehind(s: seq<u8>, base: nat, off: nat, t: seq<u8>)
    requires base + off + |t| <= |s|
    ensures Splice(s, base + off, t)[base..] == Splice(s[base..], off, t)
    ensures Splice(s, base + off, t)[..base] == s[..base]
  {
  }

  lemma DiagonalFits(x: nat, w: nat, off: nat, base: nat, len: nat)
    requires x < w && off == x * w && base + w * w + w <= len + 1
    ensures base + off + x + w <= len
  {
    ProductStep(x, w, w);
  }

  /** Where row x of a matrix starts. */
  ghost function RowStart(a: Matrix, x: nat): nat
    requires x <= |a|
  {
    |Flat(a, 0, x)|
  }

  lemma RowStarts(a: Matrix, w: nat, x: nat)
    requires Uniform(a, w) && x <= |a|
    ensures RowStart(a, x) == x * w
    ensures forall i :: 0 <= i < x ==> RowStart(a, i) + w <= RowStart(a, x)
  {
    FlatLength(a, w, 0, x);
    forall i | 0 <= i < x
      ensures RowStart(a, i) + w <= RowStart(a, x)
    {
      FlatLength(a, w, 0, i);
      ProductStep(i, x, w);
    }
  }

  /** A buffer that holds a matrix m with rows of k bytes, and from base on a square matrix a. */
  ghost predicate TwoMatrices(s: seq<u8>, m: Matrix, k: nat, base: nat, a: Matrix)
  {
    && RowStart(m, |m|) <= base <= |s| && Holds(s, m, k)
    && Holds(s[base..], a, |a|)
  }

  lemma FirstKept(s: seq<u8>, s': seq<u8>, m: Matrix, k: nat, base: nat)
    requires Holds(s, m, k) && RowStart(m, |m|) <= base <= |s| == |s'| && s'[..base] == s[..base]
    ensures Holds(s', m, k)
  {
    var f := Flat(m, 0, |m|);
    assert f == s[..base][..|f|] == s'[..base][..|f|];
  }

  lemma WorkScaled(s: seq<u8>, m: Matrix, k: nat, base: nat, a: Matrix, w: nat, x: nat, off: nat, u: u8)
    requires TwoMatrices(s, m, k, base, a) && x < w == |a| && off == RowStart(a, x)
    requires ClearLeft(a, x)
    requires base + off + x + w <= |s|
    ensures TwoMatrices(Splice(s, base + off + x, Scale(s[base + off + x..base + off + x + w], u)),
                        m, k, base, a[x := Scale(a[x], u)])
  {
    var t := Scale(s[base + off + x..base + off + x + w], u);
    assert s[base..][off + x..off + x + w] == s[base + off + x..base + off + x + w];
    SpliceBehind(s, base, off + x, t);
    ScaleFromDiagonal(s[base..], a, w, x, off, u);
    FirstKept(s, Splice(s, base + (off + x), t), m, k, base);
  }

  /** The w bytes from the diagonal on lie in the buffer, and scaling them scales row x. */
  lemma DiagonalScaled(s: seq<u8>, m: Matrix, k: nat, base: nat, a: Matrix, w: nat, x: nat, off: nat, u: u8)
    requires TwoMatrices(s, m, k, base, a) && x < w == |a| && off == x * w && Uniform(a, w)
    requires base + w * w + w <= |s| + 1
    requires ClearLeft(a, x)
    ensures base + off + x + w <= |s|
    ensures TwoMatrices(Splice(s, base + off + x, Scale(s[base + off + x..base + off + x + w], u)),
                        m, k, base, a[x := Scale(a[x], u)])
  {
    RowStarts(a, w, x);
    DiagonalFits(x, w, off, base, |s|);
    WorkScaled(s, m, k, base, a, w, x, off, u);
  }

  lemma WorkRowIs(s: seq<u8>, m: Matrix, k: nat, base: nat, a: Matrix, w: nat, x: nat)
    requires TwoMatrices(s, m, k, base, a) && x < w == |a|
    ensures base + RowStart(a, x) + w <= |s|
    ensures s[base + RowStart(a, x)..base + RowStart(a, x) + w] == a[x]
  {
    RowInBuffer(s[base..], a, w, x);
    var off := RowStart(a, x);
    assert s[base..][off..off + w] == s[base + off..base + off + w];
  }

  lemma WorkRowReplaced(s: seq<u8>, m: Matrix, k: nat, base: nat, a: Matrix, w: nat, x: nat, off: nat, r: Row)
    requires TwoMatrices(s, m, k, base, a) && x < w == |a| == |r| && off == RowStart(a, x)
    requires base + off + w <= |s|
    ensures TwoMatrices(Splice(s, base + off, r), m, k, base, a[x := r])
  {
    SpliceBehind(s, base, off, r);
    RowStarts(a, w, x);
    ReplaceRow(s[base..], a, w, x, r);
    FirstKept(s, Splice(s, base + off, r), m, k, base);
  }

  /** The bytes from base on start with t. */
  ghost predicate StartsWith(s: seq<u8>, base: nat, t: seq<u8>)
  {
    base + |t| <= |s| && s[base..base + |t|] == t
  }

  lemma ByteWritten(s: seq<u8>, t: seq<u8>, at: nat, v: u8)
    requires StartsWith(s, 0, t) && at == |t| < |s|
    ensures StartsWith(s[at := v], 0, t + [v])
  {
  }

  lemma ByteAppended(s: seq<u8>, m: Matrix, k: nat, base: nat, t: seq<u8>, at: nat, v: u8)
    requires Holds(s, m, k) && RowStart(m, |m|) <= base && StartsWith(s, base, t)
    requires at == base + |t| < |s|
    ensures Holds(s[at := v], m, k) && StartsWith(s[at := v], base, t + [v])
  {
    FirstKept(s, s[at := v], m, k, base);
  }

  lemma AllRowsWritten(s: seq<u8>, m: Matrix, k: nat, base: nat, a: Matrix)
    requires Holds(s, m, k) && RowStart(m, |m|) <= base && Square(a) && StartsWith(s, base, Flat(a, 0, |a|))
    ensures TwoMatrices(s, m, k, base, a)
  {
    var f := Flat(a, 0, |a|);
    assert s[base..][..|f|] == s[base..base + |f|];
  }

  /** The same for what the buffer holds after scaling. */
  lemma AfterScaling(s: seq<u8>, s': seq<u8>, m: Matrix, k: nat, base: nat, a: Matrix, w: nat, x: nat, off: nat, u: u8)
    requires TwoMatrices(s, m, k, base, a) && x < w == |a| && off == x * w && Uniform(a, w)
    requires base + w * w + w <= |s| + 1 && ClearLeft(a, x) && base + off + x + w <= |s|
    requires s' == Splice(s, base + off + x, Scale(s[base + off + x..base + off + x + w], u))
    ensures Square(a[x := Scale(a[x], u)]) && TwoMatrices(s', m, k, base, a[x := Scale(a[x], u)])
  {
    DiagonalScaled(s, m, k, base, a, w, x, off, u);
  }
}
