/**
 Elimination without pivoting, as a function of a square matrix a and of the shards y that
 stand for the products of its rows with unknown shards.
 */
module Elimination {
  import opened Bits
  import opened Gf256
  import opened Inverses
  import opened Vectors

  type Matrix = seq<Row>

  ghost predicate Square(a: Matrix)
  {
    Uniform(a, |a|)
  }

  /** y is what the rows of a give on the shards xs. */
  ghost predicate Holds(a: Matrix, y: seq<Row>, xs: seq<Row>, len: nat)
    requires Uniform(xs, len)
  {
    && |a| == |y| == |xs|
    && Square(a)
    && forall i :: 0 <= i < |a| ==> y[i] == Combine(a[i], xs, len)
  }

  // The forward pass

  ghost function Pivot(a: Matrix, x: nat): u8
    requires Square(a) && x < |a|
  {
    Inv(a[x][x])
  }

  /** Row x is scaled by the inverse of its pivot and cleared from the rows below. */
  ghost function ClearBelow(a: Matrix, x: nat): (b: Matrix)
    requires Square(a) && x < |a|
    ensures |b| == |a| && Square(b)
  {
    seq(|a|, i requires 0 <= i < |a| =>
      if i < x then a[i]
      else if i == x then Scale(a[x], Pivot(a, x))
      else AddScaled(a[i], Scale(a[x], Pivot(a, x)), a[i][x]))
  }

  /** The same operations on the shards, with the coefficients of the matrix. */
  ghost function ClearShards(a: Matrix, y: seq<Row>, x: nat, len: nat): (z: seq<Row>)
    requires Square(a) && x < |a| == |y| && Uniform(y, len)
    ensures |z| == |y| && Uniform(z, len)
  {
    seq(|a|, i requires 0 <= i < |a| =>
      if i < x then y[i]
      else if i == x then Scale(y[x], Pivot(a, x))
      else AddScaled(y[i], Scale(y[x], Pivot(a, x)), a[i][x]))
  }

  ghost function Forward(a: Matrix, k: nat): (b: Matrix)
    requires Square(a) && k <= |a|
    ensures |b| == |a| && Square(b)
  {
    if k == 0 then a else ClearBelow(Forward(a, k - 1), k - 1)
  }

  ghost function ForwardShards(a: Matrix, y: seq<Row>, k: nat, len: nat): (z: seq<Row>)
    requires Square(a) && k <= |a| == |y| && Uniform(y, len)
    ensures |z| == |y| && Uniform(z, len)
  {
    if k == 0 then y
    else ClearShards(Forward(a, k - 1), ForwardShards(a, y, k - 1, len), k - 1, len)
  }

  ghost predicate PivotNonZero(a: Matrix, k: nat)
    requires Square(a)
  {
    k < |a| ==> Forward(a, k)[k][k] != 0
  }

  /** No pivot the elimination meets is zero. */
  ghost predicate Regular(a: Matrix)
    requires Square(a)
  {
    forall k: nat :: PivotNonZero(a, k)
  }

  // The backward pass changes shards only

  ghost function ClearAbove(a: Matrix, y: seq<Row>, x: nat, len: nat): (z: seq<Row>)
    requires Square(a) && x < |a| == |y| && Uniform(y, len)
    ensures |z| == |y| && Uniform(z, len)
  {
    seq(|a|, i requires 0 <= i < |a| => if i < x then AddScaled(y[i], y[x], a[i][x]) else y[i])
  }

  ghost function Backward(a: Matrix, y: seq<Row>, n: nat, len: nat): (z: seq<Row>)
    requires Square(a) && n <= |a| == |y| && Uniform(y, len)
    ensures |z| == |y| && Uniform(z, len)
    decreases n
  {
    if n == 0 then y else Backward(a, ClearAbove(a, y, n - 1, len), n - 1, len)
  }

  ghost function Solution(a: Matrix, y: seq<Row>, len: nat): (z: seq<Row>)
    requires Square(a) && |a| == |y| && Uniform(y, len)
    ensures |z| == |y| && Uniform(z, len)
  {
    Backward(Forward(a, |a|), ForwardShards(a, y, |a|, len), |a|, len)
  }

  // Every step keeps the system true

  lemma ClearKeeps(a: Matrix, y: seq<Row>, xs: seq<Row>, x: nat, len: nat)
    requires Uniform(xs, len) && Uniform(y, len) && Holds(a, y, xs, len) && x < |a|
    ensures Holds(ClearBelow(a, x), ClearShards(a, y, x, len), xs, len)
  {
    var p := Scale(a[x], Pivot(a, x));
    CombineScale(a[x], Pivot(a, x), xs, len);
    forall i | 0 <= i < |a|
      ensures ClearShards(a, y, x, len)[i] == Combine(ClearBelow(a, x)[i], xs, len)
    {
      if i > x {
        CombineAddScaled(a[i], p, a[i][x], xs, len);
      }
    }
  }

  lemma ForwardShardsStep(a: Matrix, y: seq<Row>, k: nat, len: nat)
    requires Square(a) && 0 < k <= |a| == |y| && Uniform(y, len)
    ensures ForwardShards(a, y, k, len)
         == ClearShards(Forward(a, k - 1), ForwardShards(a, y, k - 1, len), k - 1, len)
  {
  }

  lemma ForwardStepKeeps(a: Matrix, y: seq<Row>, xs: seq<Row>, k: nat, len: nat)
    requires Square(a) && 0 < k <= |a| == |y| && Uniform(xs, len) && Uniform(y, len)
    requires Holds(Forward(a, k - 1), ForwardShards(a, y, k - 1, len), xs, len)
    ensures Holds(Forward(a, k), ForwardShards(a, y, k, len), xs, len)
  {
    var b, z := Forward(a, k - 1), ForwardShards(a, y, k - 1, len);
    assert Holds(ClearBelow(b, k - 1), ClearShards(b, z, k - 1, len), xs, len) by {
      ClearKeeps(b, z, xs, k - 1, len);
    }
    assert ForwardShards(a, y, k, len) == ClearShards(b, z, k - 1, len) by {
      ForwardShardsStep(a, y, k, len);
    }
  }

  lemma {:induction false} ForwardKeeps(a: Matrix, y: seq<Row>, xs: seq<Row>, k: nat, len: nat)
    requires Uniform(xs, len) && Uniform(y, len) && Holds(a, y, xs, len) && k <= |a|
    ensures Holds(Forward(a, k), ForwardShards(a, y, k, len), xs, len)
  {
    if k > 0 {
      ForwardKeeps(a, y, xs, k - 1, len);
      ForwardStepKeeps(a, y, xs, k, len);
    }
  }

  /** The first k columns are those of a unit upper triangle. */
  ghost predicate Cleared(a: Matrix, k: nat)
    requires Square(a) && k <= |a|
  {
    && (forall i :: 0 <= i < k ==> a[i][i] == 1)
    && (forall i, j :: 0 <= j < i < |a| && j < k ==> a[i][j] == 0)
  }

  lemma ClearColumn(a: Matrix, x: nat)
    requires Square(a) && x < |a| && Cleared(a, x) && a[x][x] != 0
    ensures Cleared(ClearBelow(a, x), x + 1)
  {
    var b, u := ClearBelow(a, x), Pivot(a, x);
    MulInv(a[x][x]);
    forall i, j | 0 <= j < i < |a| && j < x + 1
      ensures b[i][j] == 0
    {
      ClearedEntry(a, x, i, j);
    }
  }

  lemma ClearedEntry(a: Matrix, x: nat, i: nat, j: nat)
    requires Square(a) && x < |a| && Cleared(a, x) && a[x][x] != 0
    requires j < i < |a| && j <= x
    ensures ClearBelow(a, x)[i][j] == 0
  {
    var u := Pivot(a, x);
    MulInv(a[x][x]);
    MulZero(u);
    MulZero(a[i][x]);
    MulOne(a[i][x]);
    AddZero(0);
    AddSelf(a[i][x]);
  }

  lemma {:induction false} ForwardClears(a: Matrix, k: nat)
    requires Square(a) && Regular(a) && k <= |a|
    ensures Cleared(Forward(a, k), k)
  {
    if k > 0 {
      ForwardClears(a, k - 1);
      assert PivotNonZero(a, k - 1);
      var b := Forward(a, k - 1);
      ClearColumn(b, k - 1);
      assert Forward(a, k) == ClearBelow(b, k - 1);
    }
  }

  // The backward pass solves a unit upper triangle

  /** Row i of a unit upper triangle without its columns n and up, except the diagonal. */
  ghost function Masked(a: Matrix, i: nat, n: nat): (r: Row)
    requires Square(a) && i < |a|
    ensures |r| == |a|
  {
    seq(|a|, j requires 0 <= j < |a| => if j < n || j == i then a[i][j] else 0)
  }

  ghost predicate SolvedFrom(a: Matrix, y: seq<Row>, xs: seq<Row>, n: nat, len: nat)
    requires Square(a) && |a| == |y| == |xs| && Uniform(xs, len) && n <= |a|
  {
    forall i :: 0 <= i < |a| ==> y[i] == Combine(Masked(a, i, n), xs, len)
  }

  lemma MaskedIsUnit(a: Matrix, i: nat, n: nat)
    requires Square(a) && Cleared(a, |a|) && i < |a| && n <= i + 1
    ensures Masked(a, i, n) == Unit(|a|, i)
  {
  }

  lemma MaskedStep(a: Matrix, i: nat, n: nat)
    requires Square(a) && i < n < |a|
    ensures Masked(a, i, n + 1)[n := 0] == Masked(a, i, n)
    ensures Masked(a, i, n + 1)[n] == a[i][n]
  {
  }

  lemma ClearAboveSolves(a: Matrix, y: seq<Row>, xs: seq<Row>, n: nat, len: nat)
    requires Square(a) && Cleared(a, |a|) && n < |a| == |y| == |xs|
    requires Uniform(y, len) && Uniform(xs, len) && SolvedFrom(a, y, xs, n + 1, len)
    ensures SolvedFrom(a, ClearAbove(a, y, n, len), xs, n, len)
  {
    MaskedIsUnit(a, n, n + 1);
    CombineUnit(n, xs, len);
    forall i | 0 <= i < |a|
      ensures ClearAbove(a, y, n, len)[i] == Combine(Masked(a, i, n), xs, len)
    {
      if i < n {
        MaskedStep(a, i, n);
        CombineUpdate(Masked(a, i, n + 1), n, 0, xs, len);
        AddZero(a[i][n]);
      } else {
        MaskedIsUnit(a, i, n);
        MaskedIsUnit(a, i, n + 1);
      }
    }
  }

  lemma {:induction false} BackwardSolves(a: Matrix, y: seq<Row>, xs: seq<Row>, n: nat, len: nat)
    requires Square(a) && Cleared(a, |a|) && n <= |a| == |y| == |xs|
    requires Uniform(y, len) && Uniform(xs, len) && SolvedFrom(a, y, xs, n, len)
    ensures Backward(a, y, n, len) == xs
    decreases n
  {
    if n == 0 {
      forall i | 0 <= i < |a|
        ensures y[i] == xs[i]
      {
        MaskedIsUnit(a, i, 0);
        CombineUnit(i, xs, len);
      }
    } else {
      ClearAboveSolves(a, y, xs, n - 1, len);
      BackwardSolves(a, ClearAbove(a, y, n - 1, len), xs, n - 1, len);
    }
  }

  /** A regular system has the shards it was made from as its solution. */
  lemma SolutionIsCorrect(a: Matrix, y: seq<Row>, xs: seq<Row>, len: nat)
    requires Square(a) && Regular(a) && Uniform(y, len) && Uniform(xs, len)
    requires Holds(a, y, xs, len)
    ensures Solution(a, y, len) == xs
  {
    var n := |a|;
    var b, z := Forward(a, n), ForwardShards(a, y, n, len);
    ForwardKeeps(a, y, xs, n, len);
    ForwardClears(a, n);
    forall i | 0 <= i < n
      ensures z[i] == Combine(Masked(b, i, n), xs, len)
    {
      assert Masked(b, i, n) == b[i];
    }
    BackwardSolves(b, z, xs, n, len);
  }
}
