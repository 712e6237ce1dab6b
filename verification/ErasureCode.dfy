/**
 The erasure code on values: what encoding computes, which losses decoding repairs and how.

 Shards 0 .. ds-1 carry data, the next |parity| ones carry parity; marks tells which are lost.
 */
module ErasureCode {
  import opened Bits
  import opened Gf256
  import opened Inverses
  import opened Vectors
  import opened Elimination
  import Cauchy

  ghost predicate ParityShape(parity: Matrix, ds: nat)
  {
    Uniform(parity, ds)
  }

  // Encoding

  ghost function Encoded(parity: Matrix, data: seq<Row>, len: nat): (shards: seq<Row>)
    requires ParityShape(parity, |data|) && Uniform(data, len)
    ensures |shards| == |parity| && Uniform(shards, len)
  {
    seq(|parity|, j requires 0 <= j < |parity| => Combine(parity[j], data, len))
  }

  /** Encoding is linear in the data. */
  lemma EncodedIsLinear(parity: Matrix, xs: seq<Row>, ys: seq<Row>, u: u8, len: nat)
    requires |xs| == |ys| && ParityShape(parity, |xs|) && Uniform(xs, len) && Uniform(ys, len)
    ensures Uniform(AddRows(xs, ys, u), len)
    ensures Encoded(parity, AddRows(xs, ys, u), len)
         == AddRows(Encoded(parity, xs, len), Encoded(parity, ys, len), u)
  {
    forall j | 0 <= j < |parity|
      ensures Encoded(parity, AddRows(xs, ys, u), len)[j]
           == AddRows(Encoded(parity, xs, len), Encoded(parity, ys, len), u)[j]
    {
      CombineOfSum(parity[j], xs, ys, u, len);
    }
  }

  // Marked and unmarked shards, in order

  ghost function Indices(marks: seq<u8>, lo: nat, hi: nat, lost: bool): (s: seq<nat>)
    requires hi <= |marks|
    ensures forall i :: 0 <= i < |s| ==> lo <= s[i] < hi && ((marks[s[i]] != 0) == lost)
    decreases hi
  {
    if hi <= lo then []
    else
      var s := Indices(marks, lo, hi - 1, lost);
      if (marks[hi - 1] != 0) == lost then s + [hi - 1] else s
  }

  lemma {:induction false} IndicesAscend(marks: seq<u8>, lo: nat, hi: nat, lost: bool)
    requires hi <= |marks|
    ensures Ascending(Indices(marks, lo, hi, lost), hi)
    decreases hi
  {
    if hi > lo {
      IndicesAscend(marks, lo, hi - 1, lost);
    }
  }

  /** Indices leaves out nothing; where is the position of k. */
  lemma {:induction false} IndicesComplete(marks: seq<u8>, lo: nat, hi: nat, lost: bool, k: nat) returns (where: nat)
    requires lo <= k < hi <= |marks| && (marks[k] != 0) == lost
    ensures where < |Indices(marks, lo, hi, lost)| && Indices(marks, lo, hi, lost)[where] == k
    decreases hi
  {
    if k == hi - 1 {
      where := |Indices(marks, lo, hi - 1, lost)|;
    } else {
      where := IndicesComplete(marks, lo, hi - 1, lost, k);
    }
  }

  lemma {:induction false} IndicesCount(marks: seq<u8>, lo: nat, hi: nat)
    requires lo <= hi <= |marks|
    ensures |Indices(marks, lo, hi, true)| + |Indices(marks, lo, hi, false)| == hi - lo
    decreases hi
  {
    if hi > lo {
      IndicesCount(marks, lo, hi - 1);
    }
  }

  lemma {:induction false} IndicesSplit(marks: seq<u8>, lo: nat, mid: nat, hi: nat, lost: bool)
    requires lo <= mid <= hi <= |marks|
    ensures |Indices(marks, lo, hi, lost)| == |Indices(marks, lo, mid, lost)| + |Indices(marks, mid, hi, lost)|
    decreases hi
  {
    if hi > mid {
      IndicesSplit(marks, lo, mid, hi - 1, lost);
    }
  }

  /** The indices below mid are the first of those below hi. */
  lemma {:induction false} IndicesPrefix(marks: seq<u8>, lo: nat, mid: nat, hi: nat, lost: bool)
    requires lo <= mid <= hi <= |marks|
    ensures Indices(marks, lo, mid, lost) <= Indices(marks, lo, hi, lost)
    decreases hi
  {
    if mid < hi {
      IndicesPrefix(marks, lo, mid, hi - 1, lost);
    }
  }

  /** When indices are missing from those below mid, one of them lies between mid and hi. */
  lemma {:induction false} IndexAhead(marks: seq<u8>, lo: nat, mid: nat, hi: nat, lost: bool) returns (k: nat)
    requires lo <= mid <= hi <= |marks|
    requires |Indices(marks, lo, mid, lost)| < |Indices(marks, lo, hi, lost)|
    ensures mid <= k < hi && (marks[k] != 0) == lost
    decreases hi
  {
    if (marks[hi - 1] != 0) == lost {
      k := hi - 1;
    } else {
      k := IndexAhead(marks, lo, mid, hi - 1, lost);
    }
  }

  ghost function Erased(marks: seq<u8>, n: nat): seq<nat>
    requires n <= |marks|
  {
    Indices(marks, 0, n, true)
  }

  ghost function Kept(marks: seq<u8>, n: nat): seq<nat>
    requires n <= |marks|
  {
    Indices(marks, 0, n, false)
  }

  ghost function Lower(s: seq<nat>, base: nat): (r: seq<nat>)
    requires forall i :: 0 <= i < |s| ==> base <= s[i]
    ensures |r| == |s| && forall i :: 0 <= i < |s| ==> r[i] == s[i] - base
  {
    seq(|s|, i requires 0 <= i < |s| => s[i] - base)
  }

  lemma LowerAscends(s: seq<nat>, base: nat, bound: nat)
    requires (forall i :: 0 <= i < |s| ==> base <= s[i]) && Ascending(s, base + bound)
    ensures Ascending(Lower(s, base), bound)
  {
  }

  /** The parity shards that survive, as row numbers of the parity matrix. */
  ghost function ParityRows(marks: seq<u8>, ds: nat, ps: nat): (d: seq<nat>)
    requires ds + ps <= |marks|
    ensures |d| == |Indices(marks, ds, ds + ps, false)| && Ascending(d, ps)
    ensures forall i :: 0 <= i < |d| ==> marks[ds + d[i]] == 0
  {
    var s := Indices(marks, ds, ds + ps, false);
    IndicesAscend(marks, ds, ds + ps, false);
    LowerAscends(s, ds, ps);
    Lower(s, ds)
  }

  ghost predicate Ascending(s: seq<nat>, bound: nat)
  {
    && (forall i :: 0 <= i < |s| ==> s[i] < bound)
    && (forall i, j :: 0 <= i < j < |s| ==> s[i] < s[j])
  }

  lemma {:induction false} AscendingAbove(s: seq<nat>, bound: nat, i: nat)
    requires Ascending(s, bound) && i < |s|
    ensures i <= s[i]
  {
    if i > 0 {
      AscendingAbove(s, bound, i - 1);
      assert s[i - 1] < s[i];
    }
  }

  lemma AscendingLength(s: seq<nat>, bound: nat)
    requires Ascending(s, bound)
    ensures |s| <= bound
  {
    if |s| > bound {
      AscendingAbove(s, bound, bound);
    }
  }

  /** At most as many data shards are lost as parity shards survive. */
  ghost predicate EnoughSurvive(marks: seq<u8>, ds: nat, ps: nat)
    requires ds + ps <= |marks|
  {
    |Erased(marks, ds)| <= |ParityRows(marks, ds, ps)|
  }

  /** Enough survive exactly when no more shards are lost, of any kind, than there is parity. */
  lemma LossesAllowed(marks: seq<u8>, ds: nat, ps: nat)
    requires ds + ps <= |marks|
    ensures EnoughSurvive(marks, ds, ps) <==> |Indices(marks, 0, ds + ps, true)| <= ps
  {
    assert EnoughSurvive(marks, ds, ps) <==> |Indices(marks, 0, ds, true)| <= |Indices(marks, ds, ds + ps, false)|;
    IndicesSplit(marks, 0, ds, ds + ps, true);
    IndicesCount(marks, ds, ds + ps);
  }

  /** One surviving parity row for each erased shard, the first ones. */
  ghost function UsedRows(marks: seq<u8>, ds: nat, ps: nat): (d: seq<nat>)
    requires ds + ps <= |marks| && EnoughSurvive(marks, ds, ps)
    ensures |d| == |Erased(marks, ds)| && Ascending(d, ps)
    ensures forall i :: 0 <= i < |d| ==> marks[ds + d[i]] == 0
  {
    ParityRows(marks, ds, ps)[..|Erased(marks, ds)|]
  }

  // Decoding

  ghost function Gather<T>(xs: seq<T>, e: seq<nat>): (s: seq<T>)
    requires forall i :: 0 <= i < |e| ==> e[i] < |xs|
    ensures |s| == |e| && forall i :: 0 <= i < |e| ==> s[i] == xs[e[i]]
  {
    seq(|e|, i requires 0 <= i < |e| => xs[e[i]])
  }

  /** The rows d of the parity matrix at the columns e. */
  ghost function Select(parity: Matrix, d: seq<nat>, e: seq<nat>): (a: seq<Row>)
    requires forall i :: 0 <= i < |d| ==> d[i] < |parity|
    requires forall i, j :: 0 <= i < |parity| && 0 <= j < |e| ==> e[j] < |parity[i]|
    ensures |a| == |d| && Uniform(a, |e|)
  {
    seq(|d|, i requires 0 <= i < |d| => Gather(parity[d[i]], e))
  }

  /** The parity shard with the first m kept data shards taken out of it. */
  ghost function Residual(row: Row, kept: seq<nat>, shards: seq<Row>, y: Row, m: nat): (r: Row)
    requires m <= |kept| && forall i :: 0 <= i < m ==> kept[i] < |row| && kept[i] < |shards|
    requires Uniform(shards, |y|)
    ensures |r| == |y|
  {
    if m == 0 then y
    else AddScaled(Residual(row, kept, shards, y, m - 1), shards[kept[m - 1]], row[kept[m - 1]])
  }

  ghost function Residuals(parity: Matrix, d: seq<nat>, kept: seq<nat>, shards: seq<Row>, ds: nat, len: nat):
    (y: seq<Row>)
    requires ParityShape(parity, ds) && ds + |parity| <= |shards| && Uniform(shards, len)
    requires forall i :: 0 <= i < |d| ==> d[i] < |parity|
    requires forall i :: 0 <= i < |kept| ==> kept[i] < ds
    ensures |y| == |d| && Uniform(y, len)
  {
    seq(|d|, i requires 0 <= i < |d| => Residual(parity[d[i]], kept, shards, shards[ds + d[i]], |kept|))
  }

  ghost function Place(e: seq<nat>, k: nat): (i: nat)
    requires k in e
    ensures i < |e| && e[i] == k
  {
    var i :| 0 <= i < |e| && e[i] == k;
    i
  }

  /** The shards with number e[i] replaced by zs[i]. */
  ghost function Scatter(shards: seq<Row>, e: seq<nat>, zs: seq<Row>): (s: seq<Row>)
    requires |e| == |zs|
    ensures |s| == |shards|
  {
    seq(|shards|, k requires 0 <= k < |shards| => if k in e then zs[Place(e, k)] else shards[k])
  }

  ghost function Repaired(parity: Matrix, marks: seq<u8>, shards: seq<Row>, ds: nat, len: nat): (s: seq<Row>)
    requires ParityShape(parity, ds) && ds + |parity| <= |marks| && ds + |parity| <= |shards| && Uniform(shards, len)
    requires EnoughSurvive(marks, ds, |parity|)
    ensures |s| == |shards|
  {
    var e := Erased(marks, ds);
    var d := UsedRows(marks, ds, |parity|);
    var y := Residuals(parity, d, Kept(marks, ds), shards, ds, len);
    Scatter(shards, e, Solution(Select(parity, d, e), y, len))
  }

  /** The parity shards that stand in for the erased ones lead to the same residuals. */
  lemma ResidualsFromCopies(parity: Matrix, marks: seq<u8>, shards: seq<Row>, ds: nat, d: seq<nat>, len: nat)
    requires ParityShape(parity, ds) && ds + |parity| <= |marks| && ds + |parity| <= |shards| && Uniform(shards, len)
    requires |d| == |Erased(marks, ds)| && Ascending(d, |parity|)
    ensures Ascending(Erased(marks, ds), |shards|)
    ensures var e, kept := Erased(marks, ds), Kept(marks, ds);
            var ys := seq(|d|, i requires 0 <= i < |d| => shards[ds + d[i]]);
            var v := Scatter(shards, e, ys);
            && Uniform(v, len)
            && forall i :: 0 <= i < |d| ==>
                 Residual(parity[d[i]], kept, v, ys[i], |kept|) == Residuals(parity, d, kept, shards, ds, len)[i]
  {
    var e, kept := Erased(marks, ds), Kept(marks, ds);
    IndicesAscend(marks, 0, ds, true);
    var ys := seq(|d|, i requires 0 <= i < |d| => shards[ds + d[i]]);
    forall i | 0 <= i < |d|
      ensures Residual(parity[d[i]], kept, Scatter(shards, e, ys), ys[i], |kept|)
           == Residuals(parity, d, kept, shards, ds, len)[i]
    {
      KeptStay(marks, shards, ds, ys);
      ResidualOfKept(parity[d[i]], kept, Scatter(shards, e, ys), shards, ys[i], |kept|);
    }
  }

  lemma KeptStay(marks: seq<u8>, shards: seq<Row>, ds: nat, ys: seq<Row>)
    requires ds <= |marks| && ds <= |shards| && |ys| == |Erased(marks, ds)|
    ensures forall i :: 0 <= i < |Kept(marks, ds)| ==>
              && Kept(marks, ds)[i] < |shards|
              && Scatter(shards, Erased(marks, ds), ys)[Kept(marks, ds)[i]] == shards[Kept(marks, ds)[i]]
  {
  }

  // When decoding restores the data

  /** Every choice of surviving parity rows for a choice of lost columns is regular. */
  ghost predicate CorrectsAllLosses(parity: Matrix, ds: nat)
    requires ParityShape(parity, ds)
  {
    forall d: seq<nat>, e: seq<nat> | Ascending(d, |parity|) && Ascending(e, ds) && |d| == |e| ::
      Regular(Select(parity, d, e))
  }

  /** The unmarked shards are those of the data xs and of its parity. */
  ghost predicate Agrees(parity: Matrix, marks: seq<u8>, shards: seq<Row>, xs: seq<Row>, len: nat)
    requires ParityShape(parity, |xs|) && Uniform(xs, len)
    requires |xs| + |parity| <= |shards| && |xs| + |parity| <= |marks|
  {
    && (forall i :: 0 <= i < |xs| && marks[i] == 0 ==> shards[i] == xs[i])
    && (forall j :: 0 <= j < |parity| && marks[|xs| + j] == 0 ==>
          shards[|xs| + j] == Combine(parity[j], xs, len))
  }

  /** row with the coefficients of the kept shards below n set to zero. */
  ghost function WithoutKept(row: Row, marks: seq<u8>, n: nat): (r: Row)
    requires |row| <= |marks|
    ensures |r| == |row|
  {
    seq(|row|, i requires 0 <= i < |row| => if i < n && marks[i] == 0 then 0 else row[i])
  }

  lemma {:induction false} ResidualPrefix(row: Row, kept: seq<nat>, more: seq<nat>, shards: seq<Row>, y: Row, m: nat)
    requires m <= |kept| && forall i :: 0 <= i < m ==> kept[i] < |row| && kept[i] < |shards|
    requires Uniform(shards, |y|)
    ensures Residual(row, kept + more, shards, y, m) == Residual(row, kept, shards, y, m)
  {
    if m > 0 {
      ResidualPrefix(row, kept, more, shards, y, m - 1);
    }
  }

  lemma ResidualStep(row: Row, marks: seq<u8>, xs: seq<Row>, k: nat, len: nat)
    requires k < |row| == |xs| <= |marks| && Uniform(xs, len)
    ensures Combine(WithoutKept(row, marks, k + 1), xs, len)
         == if marks[k] == 0 then AddScaled(Combine(WithoutKept(row, marks, k), xs, len), xs[k], row[k])
            else Combine(WithoutKept(row, marks, k), xs, len)
  {
    var r := WithoutKept(row, marks, k);
    if marks[k] == 0 {
      CombineUpdate(r, k, 0, xs, len);
      AddZero(row[k]);
      assert r[k := 0] == WithoutKept(row, marks, k + 1);
    } else {
      assert r == WithoutKept(row, marks, k + 1);
    }
  }

  ghost function ResidualBelow(row: Row, marks: seq<u8>, shards: seq<Row>, y: Row, n: nat): (r: Row)
    requires n <= |row| <= |shards| && |row| <= |marks| && Uniform(shards, |y|)
    ensures |r| == |y|
  {
    Residual(row, Kept(marks, n), shards, y, |Kept(marks, n)|)
  }

  lemma ResidualBelowStep(row: Row, marks: seq<u8>, shards: seq<Row>, y: Row, k: nat)
    requires k < |row| <= |shards| && |row| <= |marks| && Uniform(shards, |y|)
    ensures ResidualBelow(row, marks, shards, y, k + 1)
         == if marks[k] == 0 then AddScaled(ResidualBelow(row, marks, shards, y, k), shards[k], row[k])
            else ResidualBelow(row, marks, shards, y, k)
  {
    var kept := Kept(marks, k);
    if marks[k] == 0 {
      assert Kept(marks, k + 1) == kept + [k];
      ResidualPrefix(row, kept, [k], shards, y, |kept|);
    }
  }

  lemma {:induction false} ResidualIsCombination(row: Row, marks: seq<u8>, shards: seq<Row>, xs: seq<Row>, n: nat,
                                                 len: nat)
    requires n <= |row| == |xs| <= |shards| && |xs| <= |marks| && Uniform(shards, len) && Uniform(xs, len)
    requires forall i :: 0 <= i < |xs| && marks[i] == 0 ==> shards[i] == xs[i]
    ensures ResidualBelow(row, marks, shards, Combine(row, xs, len), n)
         == Combine(WithoutKept(row, marks, n), xs, len)
  {
    if n == 0 {
      assert WithoutKept(row, marks, 0) == row;
    } else {
      ResidualIsCombination(row, marks, shards, xs, n - 1, len);
      ResidualBelowStep(row, marks, shards, Combine(row, xs, len), n - 1);
      ResidualStep(row, marks, xs, n - 1, len);
    }
  }

  /** Without the kept columns a sum only runs over the erased ones. */
  ghost function DotErased(row: Row, marks: seq<u8>, xs: seq<Row>, n: nat, t: nat): u8
    requires n <= |row| == |xs| <= |marks|
    requires forall j :: 0 <= j < |xs| ==> t < |xs[j]|
  {
    var e := Erased(marks, n);
    Dot(Gather(row, e), Gather(xs, e), |e|, t)
  }

  lemma DotErasedStep(row: Row, marks: seq<u8>, xs: seq<Row>, k: nat, t: nat)
    requires k < |row| == |xs| <= |marks|
    requires forall j :: 0 <= j < |xs| ==> t < |xs[j]|
    ensures DotErased(row, marks, xs, k + 1, t)
         == if marks[k] == 0 then DotErased(row, marks, xs, k, t)
            else Add(DotErased(row, marks, xs, k, t), Mul(row[k], xs[k][t]))
  {
    var e := Erased(marks, k);
    if marks[k] != 0 {
      assert Erased(marks, k + 1) == e + [k];
      DotPrefix(Gather(row, e), Gather(row, e + [k]), Gather(xs, e), Gather(xs, e + [k]), |e|, t);
    }
  }

  lemma {:induction false} DotOfErased(row: Row, marks: seq<u8>, xs: seq<Row>, n: nat, t: nat)
    requires n <= |row| == |xs| <= |marks|
    requires forall j :: 0 <= j < |xs| ==> t < |xs[j]|
    ensures Dot(WithoutKept(row, marks, |row|), xs, n, t) == DotErased(row, marks, xs, n, t)
  {
    if n > 0 {
      var k := n - 1;
      DotOfErased(row, marks, xs, k, t);
      DotErasedStep(row, marks, xs, k, t);
      if marks[k] == 0 {
        MulZero(xs[k][t]);
        AddZero(DotErased(row, marks, xs, k, t));
      }
    }
  }

  lemma CombineOfErased(row: Row, marks: seq<u8>, xs: seq<Row>, len: nat)
    requires |row| == |xs| <= |marks| && Uniform(xs, len)
    ensures var e := Erased(marks, |xs|);
            Combine(WithoutKept(row, marks, |row|), xs, len) == Combine(Gather(row, e), Gather(xs, e), len)
  {
    var e := Erased(marks, |xs|);
    forall t | 0 <= t < len
      ensures Combine(WithoutKept(row, marks, |row|), xs, len)[t] == Combine(Gather(row, e), Gather(xs, e), len)[t]
    {
      DotOfErased(row, marks, xs, |xs|, t);
    }
  }

  /** The residuals are what the selected part of the matrix gives on the lost shards. */
  lemma ResidualsHold(parity: Matrix, marks: seq<u8>, shards: seq<Row>, xs: seq<Row>, d: seq<nat>, len: nat)
    requires ParityShape(parity, |xs|) && Uniform(xs, len) && Uniform(shards, len)
    requires |xs| + |parity| <= |shards| && |xs| + |parity| <= |marks|
    requires Agrees(parity, marks, shards, xs, len)
    requires Ascending(d, |parity|) && |d| == |Erased(marks, |xs|)|
    requires forall i :: 0 <= i < |d| ==> marks[|xs| + d[i]] == 0
    ensures var e := Erased(marks, |xs|);
            Holds(Select(parity, d, e), Residuals(parity, d, Kept(marks, |xs|), shards, |xs|, len), Gather(xs, e), len)
  {
    var e, kept := Erased(marks, |xs|), Kept(marks, |xs|);
    var y := Residuals(parity, d, kept, shards, |xs|, len);
    forall i | 0 <= i < |d|
      ensures y[i] == Combine(Select(parity, d, e)[i], Gather(xs, e), len)
    {
      var row := parity[d[i]];
      ResidualIsCombination(row, marks, shards, xs, |xs|, len);
      CombineOfErased(row, marks, xs, len);
    }
  }

  lemma ScatterIs(shards: seq<Row>, e: seq<nat>, zs: seq<Row>, i: nat)
    requires |e| == |zs| && i < |e| && Ascending(e, |shards|)
    ensures Scatter(shards, e, zs)[e[i]] == zs[i]
  {
    var j := Place(e, e[i]);
    assert e[j] == e[i];
  }

  lemma ScatterUpdate(shards: seq<Row>, e: seq<nat>, zs: seq<Row>, i: nat, z: Row)
    requires |e| == |zs| && i < |e| && Ascending(e, |shards|)
    ensures Scatter(shards, e, zs)[e[i]] == zs[i]
    ensures Scatter(shards, e, zs)[e[i] := z] == Scatter(shards, e, zs[i := z])
  {
    ScatterIs(shards, e, zs, i);
    ScatterIs(shards, e, zs[i := z], i);
  }

  lemma ScatterTwice(shards: seq<Row>, e: seq<nat>, ys: seq<Row>, zs: seq<Row>)
    requires |e| == |ys| == |zs|
    ensures Scatter(Scatter(shards, e, ys), e, zs) == Scatter(shards, e, zs)
  {
  }

  /** Putting back what is there changes nothing. */
  lemma ScatterSame(shards: seq<Row>, e: seq<nat>)
    requires Ascending(e, |shards|)
    ensures Scatter(shards, e, Gather(shards, e)) == shards
  {
  }

  /** Scattering one more shard. */
  lemma ScatterMore(shards: seq<Row>, e: seq<nat>, zs: seq<Row>, n: nat)
    requires n < |e| == |zs| && Ascending(e, |shards|)
    ensures Scatter(shards, e[..n], zs[..n])[e[n] := zs[n]] == Scatter(shards, e[..n + 1], zs[..n + 1])
  {
    var x, y := Scatter(shards, e[..n], zs[..n])[e[n] := zs[n]], Scatter(shards, e[..n + 1], zs[..n + 1]);
    forall k | 0 <= k < |shards|
      ensures x[k] == y[k]
    {
      ScatterMoreAt(shards, e, zs, n, k);
    }
  }

  lemma ScatterMoreAt(shards: seq<Row>, e: seq<nat>, zs: seq<Row>, n: nat, k: nat)
    requires n < |e| == |zs| && Ascending(e, |shards|) && k < |shards|
    ensures Scatter(shards, e[..n], zs[..n])[e[n] := zs[n]][k] == Scatter(shards, e[..n + 1], zs[..n + 1])[k]
  {
    if j :| 0 <= j < n + 1 && e[j] == k {
      ScatterIs(shards, e[..n + 1], zs[..n + 1], j);
      if j < n {
        ScatterIs(shards, e[..n], zs[..n], j);
      }
    } else {
      assert k !in e[..n + 1] && k !in e[..n];
    }
  }

  lemma {:induction false} ResidualOfKept(row: Row, kept: seq<nat>, shards: seq<Row>, others: seq<Row>, y: Row, m: nat)
    requires m <= |kept| && |shards| == |others| && Uniform(shards, |y|) && Uniform(others, |y|)
    requires forall i :: 0 <= i < m ==> kept[i] < |row| && kept[i] < |shards| && shards[kept[i]] == others[kept[i]]
    ensures Residual(row, kept, shards, y, m) == Residual(row, kept, others, y, m)
  {
    if m > 0 {
      ResidualOfKept(row, kept, shards, others, y, m - 1);
    }
  }

  lemma ScatterRestores(marks: seq<u8>, shards: seq<Row>, xs: seq<Row>)
    requires |xs| <= |shards| && |xs| <= |marks|
    requires forall i :: 0 <= i < |xs| && marks[i] == 0 ==> shards[i] == xs[i]
    ensures var e := Erased(marks, |xs|);
            Scatter(shards, e, Gather(xs, e)) == xs + shards[|xs|..]
  {
    var e := Erased(marks, |xs|);
    forall k | 0 <= k < |shards|
      ensures Scatter(shards, e, Gather(xs, e))[k] == (xs + shards[|xs|..])[k]
    {
      if k < |xs| && marks[k] != 0 {
        var i := IndicesComplete(marks, 0, |xs|, true, k);
        assert e[i] == k;
      }
    }
  }

  /** The solution of the system that decoding sets up is the erased data. */
  lemma SolutionIsErasedData(parity: Matrix, marks: seq<u8>, shards: seq<Row>, xs: seq<Row>, d: seq<nat>, len: nat)
    requires ParityShape(parity, |xs|) && CorrectsAllLosses(parity, |xs|)
    requires Uniform(xs, len) && Uniform(shards, len)
    requires |xs| + |parity| <= |shards| && |xs| + |parity| <= |marks|
    requires Agrees(parity, marks, shards, xs, len)
    requires Ascending(d, |parity|) && |d| == |Erased(marks, |xs|)|
    requires forall i :: 0 <= i < |d| ==> marks[|xs| + d[i]] == 0
    ensures var e := Erased(marks, |xs|);
            Solution(Select(parity, d, e), Residuals(parity, d, Kept(marks, |xs|), shards, |xs|, len), len)
              == Gather(xs, e)
  {
    var e := Erased(marks, |xs|);
    IndicesAscend(marks, 0, |xs|, true);
    ResidualsHold(parity, marks, shards, xs, d, len);
    SolutionIsCorrect(Select(parity, d, e), Residuals(parity, d, Kept(marks, |xs|), shards, |xs|, len), Gather(xs, e),
                      len);
  }

  /**
   Erasure recovery: whatever the marked shards hold, decoding restores every data shard and
   leaves the parity shards alone.
   */
  lemma RepairRestoresData(parity: Matrix, marks: seq<u8>, shards: seq<Row>, xs: seq<Row>, len: nat)
    requires ParityShape(parity, |xs|) && CorrectsAllLosses(parity, |xs|)
    requires Uniform(xs, len) && Uniform(shards, len)
    requires |xs| + |parity| <= |shards| && |xs| + |parity| <= |marks|
    requires Agrees(parity, marks, shards, xs, len)
    requires EnoughSurvive(marks, |xs|, |parity|)
    ensures Repaired(parity, marks, shards, |xs|, len) == xs + shards[|xs|..]
  {
    var d := UsedRows(marks, |xs|, |parity|);
    SolutionIsErasedData(parity, marks, shards, xs, d, len);
    ScatterRestores(marks, shards, xs);
  }

  // The matrix of the library

  ghost function CauchyRow(ds: nat, ps: nat, j: nat): (r: Row)
    requires ds + ps <= 256 && j < ps
    ensures |r| == ds
  {
    seq<u8>(ds, i requires 0 <= i < ds => Inv(Add(ps + i, j)))
  }

  ghost function CauchyParity(ds: nat, ps: nat): (p: Matrix)
    requires ds + ps <= 256
    ensures |p| == ps && ParityShape(p, ds)
  {
    seq(ps, j requires 0 <= j < ps => CauchyRow(ds, ps, j))
  }

  lemma CauchyCorrectsAllLosses(ds: nat, ps: nat)
    requires ds + ps <= 256
    ensures CorrectsAllLosses(CauchyParity(ds, ps), ds)
  {
    var p := CauchyParity(ds, ps);
    forall d: seq<nat>, e: seq<nat> | Ascending(d, ps) && Ascending(e, ds) && |d| == |e|
      ensures Regular(Select(p, d, e))
    {
      var r: seq<u8> := seq(|d|, i requires 0 <= i < |d| => d[i]);
      var c: seq<u8> := seq(|e|, j requires 0 <= j < |e| => ps + e[j]);
      forall i, j | 0 <= i < |d| && 0 <= j < |d|
        ensures Select(p, d, e)[i][j] == Inv(Add(r[i], c[j]))
      {
        AddComm(ps + e[j], d[i]);
      }
      Cauchy.CauchyIsRegular(Select(p, d, e), r, c);
    }
  }
}
