/**
 Square parts of a Cauchy matrix are regular: elimination without pivoting never meets a zero
 pivot, because each live entry is a product of non-zero factors.
 */
module Cauchy {
  import opened Bits
  import opened Gf256
  import opened Inverses
  import opened Vectors
  import opened Elimination

  /** All row points and column points are pairwise different. */
  ghost predicate Distinct(r: seq<u8>, c: seq<u8>)
  {
    && (forall i, j :: 0 <= i < j < |r| ==> r[i] != r[j])
    && (forall i, j :: 0 <= i < j < |c| ==> c[i] != c[j])
    && (forall i, j :: 0 <= i < |r| && 0 <= j < |c| ==> r[i] != c[j])
  }

  ghost predicate IsCauchy(a: Matrix, r: seq<u8>, c: seq<u8>)
  {
    && Square(a) && |r| == |c| == |a|
    && forall i, j :: 0 <= i < |a| && 0 <= j < |a| ==> a[i][j] == Inv(Add(r[i], c[j]))
  }

  // What k pivots have multiplied row i and column j by

  ghost function RowFactor(r: seq<u8>, c: seq<u8>, k: nat, i: nat): u8
    requires k <= |r| == |c| && i < |r|
  {
    if k == 0 then 1
    else Mul(RowFactor(r, c, k - 1, i), Mul(Add(r[i], r[k - 1]), Inv(Add(r[i], c[k - 1]))))
  }

  ghost function ColFactor(r: seq<u8>, c: seq<u8>, k: nat, j: nat): u8
    requires k <= |r| == |c| && j < |r|
  {
    if k == 0 then 1
    else Mul(ColFactor(r, c, k - 1, j), Mul(Add(c[j], c[k - 1]), Inv(Add(r[k - 1], c[j]))))
  }

  /** The entry at (i, j) after k pivots, for i, j >= k. */
  ghost function Live(r: seq<u8>, c: seq<u8>, k: nat, i: nat, j: nat): u8
    requires k <= |r| == |c| && i < |r| && j < |r|
  {
    Mul(Inv(Add(r[i], c[j])), Mul(RowFactor(r, c, k, i), ColFactor(r, c, k, j)))
  }

  lemma PointsDiffer(r: seq<u8>, c: seq<u8>, i: nat, j: nat)
    requires Distinct(r, c) && i < |r| && j < |c|
    ensures Add(r[i], c[j]) != 0 && Inv(Add(r[i], c[j])) != 0
  {
    AddIsZero(r[i], c[j]);
    InvNonZero(Add(r[i], c[j]));
  }

  lemma {:induction false} FactorsNonZero(r: seq<u8>, c: seq<u8>, k: nat, i: nat)
    requires Distinct(r, c) && k <= i < |r| == |c|
    ensures RowFactor(r, c, k, i) != 0 && ColFactor(r, c, k, i) != 0
  {
    if k > 0 {
      FactorsNonZero(r, c, k - 1, i);
      PointsDiffer(r, c, i, k - 1);
      PointsDiffer(r, c, k - 1, i);
      AddIsZero(r[i], r[k - 1]);
      AddIsZero(c[i], c[k - 1]);
      NoZeroDivisors(Add(r[i], r[k - 1]), Inv(Add(r[i], c[k - 1])));
      NoZeroDivisors(Add(c[i], c[k - 1]), Inv(Add(r[k - 1], c[i])));
      NoZeroDivisors(RowFactor(r, c, k - 1, i), Mul(Add(r[i], r[k - 1]), Inv(Add(r[i], c[k - 1]))));
      NoZeroDivisors(ColFactor(r, c, k - 1, i), Mul(Add(c[i], c[k - 1]), Inv(Add(r[k - 1], c[i]))));
    }
  }

  lemma LiveNonZero(r: seq<u8>, c: seq<u8>, k: nat, i: nat, j: nat)
    requires Distinct(r, c) && k <= i < |r| == |c| && k <= j < |r|
    ensures Live(r, c, k, i, j) != 0
  {
    FactorsNonZero(r, c, k, i);
    FactorsNonZero(r, c, k, j);
    PointsDiffer(r, c, i, j);
    NoZeroDivisors(RowFactor(r, c, k, i), ColFactor(r, c, k, j));
    NoZeroDivisors(Inv(Add(r[i], c[j])), Mul(RowFactor(r, c, k, i), ColFactor(r, c, k, j)));
  }

  // One elimination step on the closed form.  In these lemmas p, q, s, w are the sums
  // (i, j), (i, k), (k, j), (k, k) of a row point and a column point.

  /** The product that one pivot subtracts, with the factors of the pivot row and column gone. */
  lemma SubtractedProduct(q1: u8, s1: u8, w: u8, f: u8, g: u8, fk: u8, gk: u8)
    requires w != 0 && fk != 0 && gk != 0
    ensures Mul(Mul(q1, Mul(f, gk)), Mul(Inv(Mul(Inv(w), Mul(fk, gk))), Mul(s1, Mul(fk, g))))
         == Mul(Mul(q1, Mul(w, s1)), Mul(f, g))
  {
    InvertPivot(w, fk, gk);
    var fi, gi := Inv(fk), Inv(gk);
    CancelRow(s1, w, g, fk, gk);
    MulSwap(q1, Mul(f, gk), Mul(w, s1), Mul(gi, g));
    MulAssoc(f, gk, Mul(gi, g));
    MulAssoc(gk, gi, g);
    MulInv(gk);
    MulOne(g);
  }

  lemma InvertPivot(w: u8, fk: u8, gk: u8)
    requires w != 0 && fk != 0 && gk != 0
    ensures Inv(Mul(Inv(w), Mul(fk, gk))) == Mul(w, Mul(Inv(fk), Inv(gk)))
  {
    InvInvolution(w);
    InvProduct(fk, gk);
    InvProduct(Inv(w), Mul(fk, gk));
  }

  lemma CancelRow(s1: u8, w: u8, g: u8, fk: u8, gk: u8)
    requires fk != 0
    ensures Mul(Mul(w, Mul(Inv(fk), Inv(gk))), Mul(s1, Mul(fk, g))) == Mul(Mul(w, s1), Mul(Inv(gk), g))
  {
    MulSwap(w, Mul(Inv(fk), Inv(gk)), s1, Mul(fk, g));
    MulSwap(Inv(fk), Inv(gk), fk, g);
    MulInv(fk);
    MulOne(Mul(Inv(gk), g));
  }

  /** In characteristic two, q s + p w = (p + s)(p + q) when w = p + q + s. */
  lemma CrossProduct(p: u8, q: u8, s: u8)
    ensures Add(Mul(q, s), Mul(p, Add(Add(p, q), s))) == Mul(Add(p, s), Add(p, q))
  {
    // both sides are (p p + p q) + (p s + q s)
    MulAdd(Add(p, q), p, s);
    MulAdd(p, p, q);
    MulAdd(s, p, q);
    MulAdd(p, Add(p, q), s);
    MulComm(p, s);
    MulComm(q, s);
    MulComm(Add(p, q), p);
    var h := Add(Mul(p, p), Mul(p, q));
    AddComm(Mul(q, s), Add(h, Mul(p, s)));
    AddAssoc(h, Mul(p, s), Mul(q, s));
    MulComm(Add(p, q), s);
  }

  lemma PivotIdentity(p: u8, q: u8, s: u8, w: u8)
    requires p != 0 && q != 0 && s != 0 && w == Add(Add(p, q), s)
    ensures Add(Inv(p), Mul(Inv(q), Mul(w, Inv(s))))
         == Mul(Inv(p), Mul(Mul(Add(p, s), Add(p, q)), Mul(Inv(q), Inv(s))))
  {
    var qs := Mul(Inv(q), Inv(s));
    CrossProduct(p, q, s);
    MulAdd(qs, Mul(q, s), Mul(p, w));
    MulSwap(q, s, Inv(q), Inv(s));
    MulInv(q);
    MulInv(s);
    MulOne(1);
    MulAdd(Inv(p), 1, Mul(Mul(p, w), qs));
    MulOne(Inv(p));
    MulAssoc(Inv(p), Mul(p, w), qs);
    MulAssoc(Inv(p), p, w);
    MulInv(p);
    MulOne(w);
    MulAssoc(w, Inv(q), Inv(s));
    MulComm(w, Inv(q));
    MulAssoc(Inv(q), w, Inv(s));
  }

  lemma StepOfFactors(p: u8, q: u8, s: u8, w: u8, f: u8, g: u8)
    requires p != 0 && q != 0 && s != 0 && w == Add(Add(p, q), s)
    ensures Add(Mul(Inv(p), Mul(f, g)), Mul(Mul(Inv(q), Mul(w, Inv(s))), Mul(f, g)))
         == Mul(Inv(p), Mul(Mul(f, Mul(Add(p, s), Inv(q))), Mul(g, Mul(Add(p, q), Inv(s)))))
  {
    var d := Mul(f, g);
    var e := Mul(Mul(Add(p, s), Add(p, q)), Mul(Inv(q), Inv(s)));
    MulAdd(d, Inv(p), Mul(Inv(q), Mul(w, Inv(s))));
    PivotIdentity(p, q, s, w);
    MulSwap(f, Mul(Add(p, s), Inv(q)), g, Mul(Add(p, q), Inv(s)));
    MulSwap(Add(p, s), Inv(q), Add(p, q), Inv(s));
    MulAssoc(Inv(p), e, d);
    MulComm(e, d);
  }

  /** The sums of two row points and of two column points, from the sums across. */
  lemma PointSums(ri: u8, rk: u8, cj: u8, ck: u8)
    ensures var p, q, s := Add(ri, cj), Add(ri, ck), Add(rk, cj);
            && Add(ri, rk) == Add(p, s)
            && Add(cj, ck) == Add(p, q)
            && Add(rk, ck) == Add(Add(p, q), s)
  {
    AddSwap(ri, cj, rk, cj);
    AddSelf(cj);
    AddZero(Add(ri, rk));
    AddSwap(ri, cj, ri, ck);
    AddSelf(ri);
    AddZero(Add(cj, ck));
    AddComm(Add(cj, ck), Add(rk, cj));
    AddAssoc(rk, cj, Add(cj, ck));
    AddAssoc(cj, cj, ck);
    AddZero(ck);
    AddZero(cj);
  }

  lemma LiveStep(r: seq<u8>, c: seq<u8>, k: nat, i: nat, j: nat)
    requires Distinct(r, c) && k < i < |r| == |c| && k < j < |r|
    ensures Add(Live(r, c, k, i, j),
                Mul(Live(r, c, k, i, k), Mul(Inv(Live(r, c, k, k, k)), Live(r, c, k, k, j))))
         == Live(r, c, k + 1, i, j)
  {
    var p, q, s, w := Add(r[i], c[j]), Add(r[i], c[k]), Add(r[k], c[j]), Add(r[k], c[k]);
    PointsDiffer(r, c, i, j);
    PointsDiffer(r, c, i, k);
    PointsDiffer(r, c, k, j);
    PointsDiffer(r, c, k, k);
    FactorsNonZero(r, c, k, k);
    PointSums(r[i], r[k], c[j], c[k]);
    var f, g := RowFactor(r, c, k, i), ColFactor(r, c, k, j);
    SubtractedProduct(Inv(q), Inv(s), w, f, g, RowFactor(r, c, k, k), ColFactor(r, c, k, k));
    StepOfFactors(p, q, s, w, f, g);
  }

  ghost predicate LiveAt(a: Matrix, r: seq<u8>, c: seq<u8>, k: nat, i: nat, j: nat)
    requires Square(a) && |r| == |c| == |a| && k <= |a| && i < |a| && j < |a|
  {
    Forward(a, k)[i][j] == Live(r, c, k, i, j)
  }

  lemma ClearedBelow(a: Matrix, k: nat, i: nat, j: nat)
    requires Square(a) && 0 < k <= i < |a| && j < |a|
    ensures var b, x := Forward(a, k - 1), k - 1;
            Forward(a, k)[i][j] == Add(b[i][j], Mul(b[i][x], Mul(Inv(b[x][x]), b[x][j])))
  {
    var b, x := Forward(a, k - 1), k - 1;
    assert Forward(a, k)[i] == AddScaled(b[i], Scale(b[x], Pivot(b, x)), b[i][x]);
  }

  lemma LiveAtStep(a: Matrix, r: seq<u8>, c: seq<u8>, x: nat, i: nat, j: nat)
    requires Square(a) && |r| == |c| == |a| && Distinct(r, c) && x < i < |a| && x < j < |a|
    requires LiveAt(a, r, c, x, i, j) && LiveAt(a, r, c, x, i, x)
    requires LiveAt(a, r, c, x, x, x) && LiveAt(a, r, c, x, x, j)
    ensures LiveAt(a, r, c, x + 1, i, j)
  {
    ClearedBelow(a, x + 1, i, j);
    LiveStep(r, c, x, i, j);
  }

  /** The closed form of every live entry, kept by every step of the elimination. */
  lemma {:induction false} LiveEntries(a: Matrix, r: seq<u8>, c: seq<u8>, k: nat, i: nat, j: nat)
    requires IsCauchy(a, r, c) && Distinct(r, c) && k <= i < |a| && k <= j < |a|
    ensures LiveAt(a, r, c, k, i, j)
    decreases k
  {
    if k == 0 {
      MulOne(1);
      MulOne(Inv(Add(r[i], c[j])));
    } else {
      var x := k - 1;
      LiveEntries(a, r, c, x, i, j);
      LiveEntries(a, r, c, x, i, x);
      LiveEntries(a, r, c, x, x, x);
      LiveEntries(a, r, c, x, x, j);
      LiveAtStep(a, r, c, x, i, j);
    }
  }

  lemma CauchyIsRegular(a: Matrix, r: seq<u8>, c: seq<u8>)
    requires IsCauchy(a, r, c) && Distinct(r, c)
    ensures Regular(a)
  {
    forall k: nat
      ensures PivotNonZero(a, k)
    {
      if k < |a| {
        LiveEntries(a, r, c, k, k, k);
        LiveNonZero(r, c, k, k, k);
      }
    }
  }
}
