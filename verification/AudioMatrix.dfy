/** The parity matrix that audio uses instead of the library's own. */
module AudioMatrix {
  import opened Bits
  import opened Gf256
  import opened Inverses
  import opened Elimination
  import opened ErasureCode
  import opened GfTables

  const DATA_SHARDS := 4
  const FEC_SHARDS := 2
  const TOTAL_SHARDS := DATA_SHARDS + FEC_SHARDS
  const MAX_BLOCK_SIZE := 1400

  const AUDIO_FEC_PARITY: seq<u8> := [0x77, 0x40, 0x38, 0x0e, 0xc7, 0xa7, 0x0d, 0x6c]

  ghost function Parity(): (m: Matrix)
    ensures |m| == FEC_SHARDS && ParityShape(m, DATA_SHARDS)
  {
    [[0x77, 0x40, 0x38, 0x0e], [0xc7, 0xa7, 0x0d, 0x6c]]
  }

  lemma RegularOfOne(a: Matrix)
    requires Square(a) && |a| == 1 && a[0][0] != 0
    ensures Regular(a)
  {
    forall k: nat
      ensures PivotNonZero(a, k)
    {
    }
  }

  /** Two rows are regular when the first pivot and the determinant are not zero. */
  lemma RegularOfTwo(a: Matrix)
    requires Square(a) && |a| == 2 && a[0][0] != 0
    requires Mul(a[0][0], a[1][1]) != Mul(a[1][0], a[0][1])
    ensures Regular(a)
  {
    SecondPivot(a);
    forall k: nat
      ensures PivotNonZero(a, k)
    {
      assert k == 0 || k == 1 || k >= 2;
    }
  }

  lemma SecondPivot(a: Matrix)
    requires Square(a) && |a| == 2 && a[0][0] != 0
    requires Mul(a[0][0], a[1][1]) != Mul(a[1][0], a[0][1])
    ensures Forward(a, 1)[1][1] != 0
  {
    var p, q, r, s := a[0][0], a[0][1], a[1][0], a[1][1];
    var t := Mul(r, Mul(Inv(p), q));
    assert Forward(a, 1)[1][1] == Add(s, t) by {
      assert Forward(a, 1) == ClearBelow(Forward(a, 0), 0);
    }
    if Add(s, t) == 0 {
      AddIsZero(s, t);
      // p * t == r * q
      MulComm(p, t);
      MulAssoc(r, Mul(Inv(p), q), p);
      MulComm(Mul(Inv(p), q), p);
      MulAssoc(p, Inv(p), q);
      MulInv(p);
      MulOne(q);
      assert false;
    }
  }

  lemma ProductIs(a: u8, b: u8, la: nat, lb: nat, c: u8)
    requires a != 0 && b != 0 && LogTable(a) == la && LogTable(b) == lb
    requires la + lb < 510 && ExpTable(la + lb) == c
    ensures Mul(a, b) == c
  {
    LogExpProduct(a, b);
  }

  // The determinants of the six column pairs are not zero.

  lemma Determinant01()
    ensures Mul(119, 167) != Mul(199, 64)
  {
    ProductIs(119, 167, 43, 205, 27);
    ProductIs(199, 64, 118, 6, 151);
  }

  lemma Determinant02()
    ensures Mul(119, 13) != Mul(199, 56)
  {
    ProductIs(119, 13, 43, 104, 41);
    ProductIs(199, 56, 118, 201, 95);
  }

  lemma Determinant03()
    ensures Mul(119, 108) != Mul(199, 14)
  {
    ProductIs(119, 108, 43, 250, 148);
    ProductIs(199, 14, 118, 199, 222);
  }

  lemma Determinant12()
    ensures Mul(64, 13) != Mul(167, 56)
  {
    ProductIs(64, 13, 6, 104, 103);
    ProductIs(167, 56, 205, 201, 170);
  }

  lemma Determinant13()
    ensures Mul(64, 108) != Mul(167, 14)
  {
    ProductIs(64, 108, 6, 250, 2);
    ProductIs(167, 14, 205, 199, 164);
  }

  lemma Determinant23()
    ensures Mul(56, 108) != Mul(13, 14)
  {
    ProductIs(56, 108, 201, 250, 200);
    ProductIs(13, 14, 104, 199, 70);
  }

  lemma Determinants(i: nat, j: nat)
    requires i < j < DATA_SHARDS
    ensures Mul(Parity()[0][i], Parity()[1][j]) != Mul(Parity()[1][i], Parity()[0][j])
  {
    if i == 0 && j == 1 {
      Determinant01();
    } else if i == 0 && j == 2 {
      Determinant02();
    } else if i == 0 && j == 3 {
      Determinant03();
    } else if i == 1 && j == 2 {
      Determinant12();
    } else if i == 1 && j == 3 {
      Determinant13();
    } else {
      Determinant23();
    }
  }

  lemma TwoOfTwo(d: seq<nat>)
    requires Ascending(d, 2) && |d| == 2
    ensures d == [0, 1]
  {
    assert d[0] < d[1] < 2;
  }

  /** Any two of the six audio shards can be lost. */
  lemma AudioCorrectsAllLosses()
    ensures CorrectsAllLosses(Parity(), DATA_SHARDS)
  {
    forall d: seq<nat>, e: seq<nat> | Ascending(d, FEC_SHARDS) && Ascending(e, DATA_SHARDS) && |d| == |e|
      ensures Regular(Select(Parity(), d, e))
    {
      AudioSelectionIsRegular(d, e);
    }
  }

  lemma AudioSelectionIsRegular(d: seq<nat>, e: seq<nat>)
    requires Ascending(d, FEC_SHARDS) && Ascending(e, DATA_SHARDS) && |d| == |e|
    ensures Regular(Select(Parity(), d, e))
  {
    var a := Select(Parity(), d, e);
    AscendingLength(d, FEC_SHARDS);
    if |d| == 0 {
      forall k: nat
        ensures PivotNonZero(a, k)
      {
      }
    } else if |d| == 1 {
      assert a[0][0] == Parity()[d[0]][e[0]] != 0;
      RegularOfOne(a);
    } else {
      TwoOfTwo(d);
      assert e[0] < e[1];
      Determinants(e[0], e[1]);
      RegularOfTwo(a);
    }
  }
}
