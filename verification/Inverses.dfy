/** Division in the field. */
module Inverses {
  import opened Bits
  import opened Gf256
  import GfTables

  /** The inverse of a non-zero element; 0 for 0, as in the table of inverses. */
  ghost function Inv(a: u8): u8
  {
    if a == 0 then 0
    else
      GfTables.InverseTable(a);
      var r: u8 :| Mul(a, r) == 1;
      r
  }

  lemma MulInv(a: u8)
    requires a != 0
    ensures Mul(a, Inv(a)) == 1 && Mul(Inv(a), a) == 1
  {
    MulComm(a, Inv(a));
  }

  lemma InverseUnique(a: u8, b: u8)
    requires Mul(a, b) == 1
    ensures a != 0 && b == Inv(a)
  {
    MulZero(b);
    MulInv(a);
    MulOne(b);
    MulOne(Inv(a));
    MulAssoc(Inv(a), a, b);
  }

  lemma TableOfInverses(a: u8)
    ensures GfTables.InvTable(a) == Inv(a)
  {
    if a != 0 {
      GfTables.InverseTable(a);
      InverseUnique(a, GfTables.InvTable(a));
    } else {
      assert GfTables.InvTable(0) == 0;
    }
  }

  lemma InvNonZero(a: u8)
    requires a != 0
    ensures Inv(a) != 0
  {
    MulInv(a);
    MulZero(a);
  }

  lemma NoZeroDivisors(a: u8, b: u8)
    ensures Mul(a, b) == 0 <==> a == 0 || b == 0
  {
    MulZero(a);
    MulZero(b);
    if a != 0 && Mul(a, b) == 0 {
      MulInv(a);
      MulAssoc(Inv(a), a, b);
      MulZero(Inv(a));
      MulOne(b);
    }
  }

  lemma MulCancel(a: u8, b: u8, c: u8)
    requires a != 0 && Mul(a, b) == Mul(a, c)
    ensures b == c
  {
    MulInv(a);
    MulAssoc(Inv(a), a, b);
    MulAssoc(Inv(a), a, c);
    MulOne(b);
    MulOne(c);
  }

  lemma InvProduct(a: u8, b: u8)
    requires a != 0 && b != 0
    ensures Mul(a, b) != 0 && Inv(Mul(a, b)) == Mul(Inv(a), Inv(b))
  {
    MulSwap(a, b, Inv(a), Inv(b));
    MulInv(a);
    MulInv(b);
    MulOne(1);
    InverseUnique(Mul(a, b), Mul(Inv(a), Inv(b)));
  }

  lemma InvInvolution(a: u8)
    requires a != 0
    ensures Inv(a) != 0 && Inv(Inv(a)) == a
  {
    MulInv(a);
    InverseUnique(Inv(a), a);
  }
}
