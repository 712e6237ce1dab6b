/** Rows of field elements: the row operations of the elimination and the sums they act on. */
module Vectors {
  import opened Bits
  import opened Gf256

  type Row = seq<u8>

  ghost predicate Uniform(rows: seq<Row>, len: nat)
  {
    forall i :: 0 <= i < |rows| ==> |rows[i]| == len
  }

  function Zeros(len: nat): (r: Row)
    ensures |r| == len && forall i :: 0 <= i < len ==> r[i] == 0
  {
    seq<u8>(len, _ => 0)
  }

  ghost function Scale(r: Row, u: u8): (s: Row)
    ensures |s| == |r| && forall i :: 0 <= i < |r| ==> s[i] == Mul(u, r[i])
  {
    seq(|r|, i requires 0 <= i < |r| => Mul(u, r[i]))
  }

  /** r + u * s */
  ghost function AddScaled(r: Row, s: Row, u: u8): (t: Row)
    requires |r| == |s|
    ensures |t| == |r| && forall i :: 0 <= i < |r| ==> t[i] == Add(r[i], Mul(u, s[i]))
  {
    seq(|r|, i requires 0 <= i < |r| => Add(r[i], Mul(u, s[i])))
  }

  /** The sum over j < n of row[j] * xs[j][t]. */
  ghost function Dot(row: Row, xs: seq<Row>, n: nat, t: nat): u8
    requires n <= |row| && n <= |xs|
    requires forall j :: 0 <= j < n ==> t < |xs[j]|
  {
    if n == 0 then 0 else Add(Dot(row, xs, n - 1, t), Mul(row[n - 1], xs[n - 1][t]))
  }

  /** The combination of the shards xs with the coefficients of row. */
  ghost function Combine(row: Row, xs: seq<Row>, len: nat): (s: Row)
    requires |row| == |xs| && Uniform(xs, len)
    ensures |s| == len && forall t :: 0 <= t < len ==> s[t] == Dot(row, xs, |xs|, t)
  {
    seq(len, t requires 0 <= t < len => Dot(row, xs, |xs|, t))
  }

  /** The combination of the first n shards only. */
  ghost function CombineFirst(row: Row, xs: seq<Row>, n: nat, len: nat): (s: Row)
    requires n <= |row| && n <= |xs| && Uniform(xs, len)
    ensures |s| == len
  {
    seq(len, t requires 0 <= t < len => Dot(row, xs, n, t))
  }

  lemma CombineNone(row: Row, xs: seq<Row>, len: nat)
    requires Uniform(xs, len)
    ensures CombineFirst(row, xs, 0, len) == Zeros(len)
  {
  }

  lemma CombineNext(row: Row, xs: seq<Row>, n: nat, len: nat)
    requires n < |row| && n < |xs| && Uniform(xs, len)
    ensures AddScaled(CombineFirst(row, xs, n, len), xs[n], row[n]) == CombineFirst(row, xs, n + 1, len)
  {
  }

  lemma CombineAll(row: Row, xs: seq<Row>, ys: seq<Row>, len: nat)
    requires |row| == |xs| <= |ys| && Uniform(xs, len) && Uniform(ys, len) && ys[..|xs|] == xs
    ensures CombineFirst(row, ys, |row|, len) == Combine(row, xs, len)
  {
    forall t | 0 <= t < len
      ensures CombineFirst(row, ys, |row|, len)[t] == Combine(row, xs, len)[t]
    {
      DotPrefix(row, row, ys, xs, |row|, t);
    }
  }

  lemma {:induction false} DotAddScaled(r: Row, s: Row, u: u8, xs: seq<Row>, n: nat, t: nat)
    requires n <= |r| == |s| && n <= |xs| && forall j :: 0 <= j < n ==> t < |xs[j]|
    ensures Dot(AddScaled(r, s, u), xs, n, t) == Add(Dot(r, xs, n, t), Mul(u, Dot(s, xs, n, t)))
  {
    if n == 0 {
      MulZero(u);
      AddZero(0);
    } else {
      DotAddScaled(r, s, u, xs, n - 1, t);
      var x := xs[n - 1][t];
      MulAdd(x, r[n - 1], Mul(u, s[n - 1]));
      MulAssoc(u, s[n - 1], x);
      MulAdd(u, Dot(s, xs, n - 1, t), Mul(s[n - 1], x));
      AddSwap(Dot(r, xs, n - 1, t), Mul(u, Dot(s, xs, n - 1, t)),
              Mul(r[n - 1], x), Mul(u, Mul(s[n - 1], x)));
    }
  }

  lemma {:induction false} DotScale(r: Row, u: u8, xs: seq<Row>, n: nat, t: nat)
    requires n <= |r| && n <= |xs| && forall j :: 0 <= j < n ==> t < |xs[j]|
    ensures Dot(Scale(r, u), xs, n, t) == Mul(u, Dot(r, xs, n, t))
  {
    if n == 0 {
      MulZero(u);
    } else {
      DotScale(r, u, xs, n - 1, t);
      MulAssoc(u, r[n - 1], xs[n - 1][t]);
      MulAdd(u, Dot(r, xs, n - 1, t), Mul(r[n - 1], xs[n - 1][t]));
    }
  }

  /** Changing one coefficient changes the sum by the difference times that shard. */
  lemma {:induction false} DotUpdate(r: Row, k: nat, v: u8, xs: seq<Row>, n: nat, t: nat)
    requires n <= |r| && n <= |xs| && k < |r| && forall j :: 0 <= j < n ==> t < |xs[j]|
    ensures Dot(r[k := v], xs, n, t)
         == if k < n then Add(Dot(r, xs, n, t), Mul(Add(r[k], v), xs[k][t])) else Dot(r, xs, n, t)
  {
    if n == 0 {
    } else {
      DotUpdate(r, k, v, xs, n - 1, t);
      var d, x := Dot(r, xs, n - 1, t), xs[n - 1][t];
      if k == n - 1 {
        MulAdd(x, r[k], v);
        AddAssoc(d, Mul(r[k], x), Add(Mul(r[k], x), Mul(v, x)));
        AddAssoc(Mul(r[k], x), Mul(r[k], x), Mul(v, x));
        AddSelf(Mul(r[k], x));
        AddZero(Mul(v, x));
      } else if k < n - 1 {
        var e := Mul(Add(r[k], v), xs[k][t]);
        AddAssoc(d, e, Mul(r[n - 1], x));
        AddComm(e, Mul(r[n - 1], x));
        AddAssoc(d, Mul(r[n - 1], x), e);
      }
    }
  }

  lemma {:induction false} DotZero(r: Row, xs: seq<Row>, n: nat, t: nat)
    requires n <= |r| && n <= |xs| && forall j :: 0 <= j < n ==> t < |xs[j]|
    requires forall j :: 0 <= j < n ==> r[j] == 0
    ensures Dot(r, xs, n, t) == 0
  {
    if n > 0 {
      DotZero(r, xs, n - 1, t);
      MulZero(xs[n - 1][t]);
      AddZero(0);
    }
  }

  lemma {:induction false} DotPrefix(r: Row, s: Row, xs: seq<Row>, ys: seq<Row>, n: nat, t: nat)
    requires n <= |r| && n <= |s| && n <= |xs| && n <= |ys|
    requires forall j :: 0 <= j < n ==> t < |xs[j]| && t < |ys[j]|
    requires forall j :: 0 <= j < n ==> r[j] == s[j] && xs[j][t] == ys[j][t]
    ensures Dot(r, xs, n, t) == Dot(s, ys, n, t)
  {
    if n > 0 {
      DotPrefix(r, s, xs, ys, n - 1, t);
    }
  }

  // The same laws for whole shards

  lemma CombineAddScaled(r: Row, s: Row, u: u8, xs: seq<Row>, len: nat)
    requires |r| == |s| == |xs| && Uniform(xs, len)
    ensures Combine(AddScaled(r, s, u), xs, len) == AddScaled(Combine(r, xs, len), Combine(s, xs, len), u)
  {
    forall t | 0 <= t < len
      ensures Combine(AddScaled(r, s, u), xs, len)[t] == AddScaled(Combine(r, xs, len), Combine(s, xs, len), u)[t]
    {
      DotAddScaled(r, s, u, xs, |xs|, t);
    }
  }

  lemma CombineScale(r: Row, u: u8, xs: seq<Row>, len: nat)
    requires |r| == |xs| && Uniform(xs, len)
    ensures Combine(Scale(r, u), xs, len) == Scale(Combine(r, xs, len), u)
  {
    forall t | 0 <= t < len
      ensures Combine(Scale(r, u), xs, len)[t] == Scale(Combine(r, xs, len), u)[t]
    {
      DotScale(r, u, xs, |xs|, t);
    }
  }

  lemma CombineUpdate(r: Row, k: nat, v: u8, xs: seq<Row>, len: nat)
    requires |r| == |xs| && Uniform(xs, len) && k < |r|
    ensures Combine(r[k := v], xs, len) == AddScaled(Combine(r, xs, len), xs[k], Add(r[k], v))
  {
    forall t | 0 <= t < len
      ensures Combine(r[k := v], xs, len)[t] == AddScaled(Combine(r, xs, len), xs[k], Add(r[k], v))[t]
    {
      DotUpdate(r, k, v, xs, |xs|, t);
    }
  }

  /** xs + u * ys, shard by shard. */
  ghost function AddRows(xs: seq<Row>, ys: seq<Row>, u: u8): (zs: seq<Row>)
    requires |xs| == |ys| && forall i :: 0 <= i < |xs| ==> |xs[i]| == |ys[i]|
    ensures |zs| == |xs| && forall i :: 0 <= i < |xs| ==> zs[i] == AddScaled(xs[i], ys[i], u)
  {
    seq(|xs|, i requires 0 <= i < |xs| => AddScaled(xs[i], ys[i], u))
  }

  lemma {:induction false} DotOfSum(row: Row, xs: seq<Row>, ys: seq<Row>, zs: seq<Row>, u: u8, n: nat, t: nat)
    requires n <= |row| && n <= |xs| && n <= |ys| && n <= |zs|
    requires forall j :: 0 <= j < n ==> t < |xs[j]| == |ys[j]| == |zs[j]| && zs[j] == AddScaled(xs[j], ys[j], u)
    ensures Dot(row, zs, n, t) == Add(Dot(row, xs, n, t), Mul(u, Dot(row, ys, n, t)))
  {
    if n == 0 {
      MulZero(u);
      AddZero(0);
    } else {
      DotOfSum(row, xs, ys, zs, u, n - 1, t);
      var r, x, y := row[n - 1], xs[n - 1][t], ys[n - 1][t];
      MulAdd(r, x, Mul(u, y));
      MulAssoc(r, u, y);
      MulComm(r, u);
      MulAssoc(u, r, y);
      MulAdd(u, Dot(row, ys, n - 1, t), Mul(r, y));
      AddSwap(Dot(row, xs, n - 1, t), Mul(u, Dot(row, ys, n - 1, t)), Mul(r, x), Mul(u, Mul(r, y)));
    }
  }

  /** Combining is linear in the shards. */
  lemma CombineOfSum(row: Row, xs: seq<Row>, ys: seq<Row>, u: u8, len: nat)
    requires |row| == |xs| == |ys| && Uniform(xs, len) && Uniform(ys, len)
    ensures Uniform(AddRows(xs, ys, u), len)
    ensures Combine(row, AddRows(xs, ys, u), len) == AddScaled(Combine(row, xs, len), Combine(row, ys, len), u)
  {
    assert Uniform(AddRows(xs, ys, u), len);
    forall t | 0 <= t < len
      ensures Combine(row, AddRows(xs, ys, u), len)[t]
           == AddScaled(Combine(row, xs, len), Combine(row, ys, len), u)[t]
    {
      DotOfSum(row, xs, ys, AddRows(xs, ys, u), u, |xs|, t);
    }
  }

  /** The columns from lo on. */
  ghost function Columns(xs: seq<Row>, lo: nat): (ys: seq<Row>)
    requires forall j :: 0 <= j < |xs| ==> lo <= |xs[j]|
    ensures |ys| == |xs| && forall j :: 0 <= j < |xs| ==> ys[j] == xs[j][lo..]
  {
    seq(|xs|, j requires 0 <= j < |xs| => xs[j][lo..])
  }

  lemma {:induction false} DotOfColumns(row: Row, xs: seq<Row>, ys: seq<Row>, lo: nat, n: nat, t: nat)
    requires n <= |row| && n <= |xs| == |ys|
    requires forall j :: 0 <= j < n ==> lo + t < |xs[j]| && ys[j] == xs[j][lo..]
    ensures Dot(row, ys, n, t) == Dot(row, xs, n, lo + t)
  {
    if n > 0 {
      DotOfColumns(row, xs, ys, lo, n - 1, t);
    }
  }

  /** Columns do not mix: combining shards and cutting off columns can be exchanged. */
  lemma CombineColumns(row: Row, xs: seq<Row>, len: nat, lo: nat)
    requires |row| == |xs| && Uniform(xs, len) && lo <= len
    ensures Uniform(Columns(xs, lo), len - lo)
    ensures Combine(row, xs, len)[lo..] == Combine(row, Columns(xs, lo), len - lo)
  {
    var ys := Columns(xs, lo);
    forall t | 0 <= t < len - lo
      ensures Combine(row, xs, len)[lo..][t] == Combine(row, ys, len - lo)[t]
    {
      DotOfColumns(row, xs, ys, lo, |xs|, t);
    }
  }

  ghost function Unit(n: nat, k: nat): Row
    requires k < n
  {
    Zeros(n)[k := 1]
  }

  lemma CombineUnit(k: nat, xs: seq<Row>, len: nat)
    requires Uniform(xs, len) && k < |xs|
    ensures Combine(Unit(|xs|, k), xs, len) == xs[k]
  {
    var z := Zeros(|xs|);
    CombineUpdate(z, k, 1, xs, len);
    AddZero(1);
    forall t | 0 <= t < len
      ensures Combine(Unit(|xs|, k), xs, len)[t] == xs[k][t]
    {
      DotZero(z, xs, |xs|, t);
      MulOne(xs[k][t]);
      AddZero(xs[k][t]);
    }
  }
}
