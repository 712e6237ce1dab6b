/** What the entries of the library's matrix are, and so its parity bytes. */
module LibraryMatrix {
  import opened Bits
  import opened ShiftMul
  import opened Gf256
  import opened Inverses
  import opened Vectors
  import opened ErasureCode
  import GfTables

  /** Every entry is the inverse of ps + i with j exclusively or-ed into it. */
  lemma CauchyEntry(ds: nat, ps: nat, i: nat, j: nat)
    requires ds + ps <= 256 && i < ds && j < ps
    ensures Mul(CauchyParity(ds, ps)[j][i], XorByte(ps + i, j)) == 1
  {
    AddDefinition(ps + i, j);
    AddIsZero(ps + i, j);
    MulInv(Add(ps + i, j));
  }

  lemma {:induction false} DotOfOne(row: Row, xs: seq<Row>, n: nat, t: nat, i: nat)
    requires n <= |row| && n <= |xs| && i < |row|
    requires forall k :: 0 <= k < n ==> t < |xs[k]| && xs[k][t] == if k == i then 1 else 0
    ensures Dot(row, xs, n, t) == if i < n then row[i] else 0
  {
    if n > 0 {
      DotOfOne(row, xs, n - 1, t, i);
      MulOne(row[n - 1]);
      MulZero(row[n - 1]);
      AddZero(row[n - 1]);
      AddZero(Dot(row, xs, n - 1, t));
    }
  }

  /**
   Where data shard i alone has a one and the others have zeroes, parity shard j has the inverse of
   ps + i with j exclusively or-ed into it.  With linearity this says what every parity byte is.
   */
  lemma ParityOfOne(ds: nat, ps: nat, xs: seq<Row>, len: nat, i: nat, j: nat, t: nat)
    requires ds + ps <= 256 && |xs| == ds && Uniform(xs, len) && i < ds && j < ps && t < len
    requires forall k :: 0 <= k < ds ==> xs[k][t] == if k == i then 1 else 0
    ensures Mul(Encoded(CauchyParity(ds, ps), xs, len)[j][t], XorByte(ps + i, j)) == 1
  {
    DotOfOne(CauchyParity(ds, ps)[j], xs, ds, t, i);
    CauchyEntry(ds, ps, i, j);
  }

  /** One data byte of value 1 with two parity shards: the parity bytes are 142 and 244. */
  lemma ParityOfOneByte()
    ensures Encoded(CauchyParity(1, 2), [[1]], 1) == [[142], [244]]
  {
    var v := Encoded(CauchyParity(1, 2), [[1]], 1);
    ParityOfOne(1, 2, [[1]], 1, 0, 0, 0);
    ParityOfOne(1, 2, [[1]], 1, 0, 1, 0);
    InverseOfTwoAndThree(v[0][0], v[1][0]);
    assert v[0] == [142] && v[1] == [244];
  }

  lemma InverseOfTwoAndThree(v: u8, w: u8)
    requires Mul(v, XorByte(2, 0)) == 1 && Mul(w, XorByte(2, 1)) == 1
    ensures v == 142 && w == 244
  {
    assert XorByte(2, 0) == 2 && XorByte(2, 1) == 3;
    MulComm(v, 2);
    MulComm(w, 3);
    InverseUnique(2, v);
    InverseUnique(3, w);
    TableOfInverses(2);
    TableOfInverses(3);
    assert GfTables.InvTable(2) == 142 && GfTables.InvTable(3) == 244;
  }
}
