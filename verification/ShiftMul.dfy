/** Multiplication of bytes by shift and exclusive or, modulo the polynomial 285. */
module ShiftMul {
  import opened Bits

  const POLYNOMIAL := 285

  function XTime(a: u8): u8
  {
    if a < 128 then 2 * a else (XTimeRange(a); XorBits(2 * a, POLYNOMIAL))
  }

  lemma XTimeRange(a: u8)
    requires a >= 128
    ensures XorBits(2 * a, POLYNOMIAL) < 256
  {
    XorTop(2 * a, POLYNOMIAL, 256);
  }

  function XorByte(a: u8, b: u8): u8
  {
    XorTop(a, b, 128);
    XorBits(a, b)
  }

  function ShiftXor(a: u8, b: u8): u8
    decreases b
  {
    if b == 0 then 0 else XorByte(if b % 2 == 1 then a else 0, ShiftXor(XTime(a), b / 2))
  }

  lemma XTimeXor(a: u8, b: u8)
    ensures XTime(XorByte(a, b)) == XorByte(XTime(a), XTime(b))
  {
    XorTop(a, b, 128);
    XorDouble(a, b);
    var p := if a < 128 then 0 else POLYNOMIAL;
    var q := if b < 128 then 0 else POLYNOMIAL;
    XorZero(2 * a); XorZero(2 * b); XorZero(2 * XorBits(a, b));
    XorSwap(2 * a, p, 2 * b, q);
    XorSelf(POLYNOMIAL); XorZero(POLYNOMIAL); XorComm(POLYNOMIAL, 0); XorZero(0);
  }

  lemma {:induction false} ShiftXorAddLeft(a: u8, c: u8, b: u8)
    ensures ShiftXor(XorByte(a, c), b) == XorByte(ShiftXor(a, b), ShiftXor(c, b))
    decreases b
  {
    if b == 0 {
      XorZero(0);
    } else {
      XTimeXor(a, c);
      ShiftXorAddLeft(XTime(a), XTime(c), b / 2);
      XorZero(0);
      XorSwap(if b % 2 == 1 then a else 0, ShiftXor(XTime(a), b / 2),
              if b % 2 == 1 then c else 0, ShiftXor(XTime(c), b / 2));
    }
  }

  lemma {:induction false} ShiftXorXTime(a: u8, b: u8)
    ensures ShiftXor(XTime(a), b) == XTime(ShiftXor(a, b))
    decreases b
  {
    if b != 0 {
      ShiftXorXTime(XTime(a), b / 2);
      XTimeXor(if b % 2 == 1 then a else 0, ShiftXor(XTime(a), b / 2));
    }
  }

  lemma {:induction false} ShiftXorZeroLeft(b: u8)
    ensures ShiftXor(0, b) == 0
    decreases b
  {
    if b != 0 {
      ShiftXorZeroLeft(b / 2);
      XorZero(0);
    }
  }

  lemma {:induction false} ShiftXorAddRight(a: u8, b: u8, c: u8)
    ensures ShiftXor(a, XorByte(b, c)) == XorByte(ShiftXor(a, b), ShiftXor(a, c))
    decreases b + c
  {
    if b == 0 {
      XorComm(0, c); XorZero(c);
      XorComm(0, ShiftXor(a, c)); XorZero(ShiftXor(a, c));
    } else if c == 0 {
      XorZero(b);
      XorZero(ShiftXor(a, b));
    } else {
      ShiftXorAddRight(XTime(a), b / 2, c / 2);
      AddRightStep(a, b, c);
    }
  }

  lemma {:induction false} AddRightStep(a: u8, b: u8, c: u8)
    requires ShiftXor(XTime(a), XorByte(b / 2, c / 2)) == XorByte(ShiftXor(XTime(a), b / 2), ShiftXor(XTime(a), c / 2))
    ensures ShiftXor(a, XorByte(b, c)) == XorByte(ShiftXor(a, b), ShiftXor(a, c))
  {
    XorSplit(b, c);
    ShiftXorStep(a, b);
    ShiftXorStep(a, c);
    ShiftXorStep(a, XorByte(b, c));
    BitOfSum(a, b, c);
    XorSwap(BitTimes(a, b), ShiftXor(XTime(a), b / 2), BitTimes(a, c), ShiftXor(XTime(a), c / 2));
  }

  /** a or 0, as the low bit of b says. */
  function BitTimes(a: u8, b: u8): u8
  {
    if b % 2 == 1 then a else 0
  }

  lemma {:induction false} BitOfSum(a: u8, b: u8, c: u8)
    ensures BitTimes(a, XorByte(b, c)) == XorByte(BitTimes(a, b), BitTimes(a, c))
  {
    XorSplit(b, c);
    XorSelf(a);
    XorZero(a);
    XorComm(0, a);
    XorZero(0);
  }

  /** The defining step also holds for a zero factor. */
  lemma {:induction false} ShiftXorStep(a: u8, b: u8)
    ensures ShiftXor(a, b) == XorByte(BitTimes(a, b), ShiftXor(XTime(a), b / 2))
  {
    XorZero(0);
  }

  lemma {:induction false} ShiftXorOneLeft(a: u8)
    ensures ShiftXor(1, a) == a
    decreases a
  {
    if a != 0 {
      ShiftXorOneLeft(a / 2);
      ShiftXorXTime(1, a / 2);
      ByteSplit(a);
    }
  }

  lemma ByteSplit(a: u8)
    ensures XorByte(a % 2, XTime(a / 2)) == a
  {
    XorDisjoint(a % 2, a / 2, 2);
  }

  lemma {:induction false} ShiftXorComm(a: u8, b: u8)
    ensures ShiftXor(a, b) == ShiftXor(b, a)
    decreases b
  {
    ShiftXorZeroLeft(a);
    if b != 0 {
      ByteSplit(b);
      ShiftXorAddLeft(b % 2, XTime(b / 2), a);
      ShiftXorOneLeft(a);
      ShiftXorXTime(b / 2, a);
      ShiftXorComm(a, b / 2);
      ShiftXorXTime(a, b / 2);
    }
  }

  lemma {:induction false} ShiftXorAssoc(a: u8, b: u8, c: u8)
    ensures ShiftXor(ShiftXor(a, b), c) == ShiftXor(a, ShiftXor(b, c))
    decreases c
  {
    if c != 0 {
      var z := ShiftXor(b, c / 2);
      ShiftXorXTime(b, c / 2);
      ShiftXorAddRight(a, if c % 2 == 1 then b else 0, XTime(z));
      ShiftXorComm(a, XTime(z));
      ShiftXorXTime(z, a);
      ShiftXorComm(z, a);
      ShiftXorXTime(ShiftXor(a, b), c / 2);
      ShiftXorAssoc(a, b, c / 2);
    }
  }
}
