/**
 The field with 256 elements.

 Addition is exclusive or and multiplication is that of ShiftMul. The proofs of the erasure
 code never look at bits, so the operations are introduced here as values about which only the
 laws below are known; AddDefinition and MulDefinition tie them to the bits.
 */
module Gf256 {
  import opened Bits
  import opened ShiftMul

  datatype Operations = Operations(add: (u8, u8) -> u8, mul: (u8, u8) -> u8) {
    ghost predicate AddIsXor(a: u8, b: u8) { add(a, b) == XorByte(a, b) }

    ghost predicate MulIsShiftXor(a: u8, b: u8) { mul(a, b) == ShiftXor(a, b) }

    ghost predicate AreThoseOfTheField()
    {
      && (forall a, b :: AddIsXor(a, b))
      && (forall a, b :: MulIsShiftXor(a, b))
    }
  }

  ghost const OPERATIONS: Operations := Chosen()

  ghost function Chosen(): (ops: Operations)
    ensures ops.AreThoseOfTheField()
  {
    assert Operations(XorByte, ShiftXor).AreThoseOfTheField();
    var ops: Operations :| ops.AreThoseOfTheField();
    ops
  }

  ghost function Add(a: u8, b: u8): u8 { OPERATIONS.add(a, b) }

  ghost function Mul(a: u8, b: u8): u8 { OPERATIONS.mul(a, b) }

  lemma AddDefinition(a: u8, b: u8)
    ensures Add(a, b) == XorByte(a, b)
  {
    assert OPERATIONS.AddIsXor(a, b);
  }

  lemma MulDefinition(a: u8, b: u8)
    ensures Mul(a, b) == ShiftXor(a, b)
  {
    assert OPERATIONS.MulIsShiftXor(a, b);
  }

  // Addition

  lemma AddComm(a: u8, b: u8)
    ensures Add(a, b) == Add(b, a)
  {
    AddDefinition(a, b);
    AddDefinition(b, a);
    XorComm(a, b);
  }

  lemma AddAssoc(a: u8, b: u8, c: u8)
    ensures Add(Add(a, b), c) == Add(a, Add(b, c))
  {
    AddDefinition(a, b);
    AddDefinition(b, c);
    AddDefinition(XorByte(a, b), c);
    AddDefinition(a, XorByte(b, c));
    XorAssoc(a, b, c);
  }

  lemma AddZero(a: u8)
    ensures Add(a, 0) == a && Add(0, a) == a
  {
    AddDefinition(a, 0);
    XorZero(a);
    AddComm(a, 0);
  }

  /** Every element is its own opposite, so subtraction is addition. */
  lemma AddSelf(a: u8)
    ensures Add(a, a) == 0
  {
    AddDefinition(a, a);
    XorSelf(a);
  }

  lemma AddSwap(a: u8, b: u8, c: u8, d: u8)
    ensures Add(Add(a, b), Add(c, d)) == Add(Add(a, c), Add(b, d))
  {
    AddAssoc(a, b, Add(c, d));
    AddAssoc(b, c, d);
    AddComm(b, c);
    AddAssoc(c, b, d);
    AddAssoc(a, c, Add(b, d));
  }

  lemma AddCancel(a: u8, b: u8)
    ensures Add(Add(a, b), b) == a
  {
    AddAssoc(a, b, b);
    AddSelf(b);
    AddZero(a);
  }

  lemma AddIsZero(a: u8, b: u8)
    ensures Add(a, b) == 0 <==> a == b
  {
    if Add(a, b) == 0 {
      AddCancel(a, b);
      AddZero(b);
    } else {
      AddSelf(a);
    }
  }

  // Multiplication

  lemma MulComm(a: u8, b: u8)
    ensures Mul(a, b) == Mul(b, a)
  {
    MulDefinition(a, b);
    MulDefinition(b, a);
    ShiftXorComm(a, b);
  }

  lemma MulAssoc(a: u8, b: u8, c: u8)
    ensures Mul(Mul(a, b), c) == Mul(a, Mul(b, c))
  {
    MulDefinition(a, b);
    MulDefinition(b, c);
    MulDefinition(ShiftXor(a, b), c);
    MulDefinition(a, ShiftXor(b, c));
    ShiftXorAssoc(a, b, c);
  }

  lemma MulZero(a: u8)
    ensures Mul(a, 0) == 0 && Mul(0, a) == 0
  {
    MulDefinition(a, 0);
    MulComm(a, 0);
  }

  lemma MulOne(a: u8)
    ensures Mul(a, 1) == a && Mul(1, a) == a
  {
    MulDefinition(1, a);
    ShiftXorOneLeft(a);
    MulComm(a, 1);
  }

  lemma MulAdd(a: u8, b: u8, c: u8)
    ensures Mul(a, Add(b, c)) == Add(Mul(a, b), Mul(a, c))
    ensures Mul(Add(b, c), a) == Add(Mul(b, a), Mul(c, a))
  {
    AddDefinition(b, c);
    MulDefinition(a, b);
    MulDefinition(a, c);
    MulDefinition(a, XorByte(b, c));
    AddDefinition(ShiftXor(a, b), ShiftXor(a, c));
    ShiftXorAddRight(a, b, c);
    MulComm(a, b);
    MulComm(a, c);
    MulComm(a, Add(b, c));
  }

  lemma MulSwap(a: u8, b: u8, c: u8, d: u8)
    ensures Mul(Mul(a, b), Mul(c, d)) == Mul(Mul(a, c), Mul(b, d))
  {
    MulAssoc(a, b, Mul(c, d));
    MulAssoc(b, c, d);
    MulComm(b, c);
    MulAssoc(c, b, d);
    MulAssoc(a, c, Mul(b, d));
  }
}
