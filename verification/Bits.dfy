/** Bytes as numbers, and the bitwise exclusive or on which the whole code rests. */
module Bits {
  type u8 = x: int | 0 <= x < 256

  /** Exclusive or of two non-negative numbers, least significant bit first. */
  function XorBits(a: nat, b: nat): nat
    decreases a + b
  {
    if a == 0 && b == 0 then 0 else (a + b) % 2 + 2 * XorBits(a / 2, b / 2)
  }

  lemma HalfOf(bit: nat, rest: nat)
    requires bit < 2
    ensures (bit + 2 * rest) % 2 == bit && (bit + 2 * rest) / 2 == rest
  {
  }

  lemma {:induction false} XorSplit(a: nat, b: nat)
    ensures XorBits(a, b) % 2 == (a + b) % 2
    ensures XorBits(a, b) / 2 == XorBits(a / 2, b / 2)
  {
    HalfOf((a + b) % 2, XorBits(a / 2, b / 2));
  }

  lemma {:induction false} XorComm(a: nat, b: nat)
    ensures XorBits(a, b) == XorBits(b, a)
    decreases a + b
  {
    if a != 0 || b != 0 {
      XorComm(a / 2, b / 2);
    }
  }

  lemma {:induction false} XorZero(a: nat)
    ensures XorBits(a, 0) == a
  {
    if a != 0 {
      XorZero(a / 2);
    }
  }

  lemma {:induction false} XorSelf(a: nat)
    ensures XorBits(a, a) == 0
  {
    if a != 0 {
      XorSelf(a / 2);
    }
  }

  lemma {:induction false} XorAssoc(a: nat, b: nat, c: nat)
    ensures XorBits(XorBits(a, b), c) == XorBits(a, XorBits(b, c))
    decreases a + b + c
  {
    if a != 0 || b != 0 || c != 0 {
      XorAssoc(a / 2, b / 2, c / 2);
      XorSplit(a, b);
      XorSplit(b, c);
      XorOfParts(a, b, XorBits(a, b), c);
      XorOfParts(c, b, XorBits(b, c), a);
      XorComm(a, XorBits(b, c));
      XorComm(a / 2, XorBits(b / 2, c / 2));
    } else {
      XorZero(0);
    }
  }

  lemma {:induction false} XorOfParts(a: nat, b: nat, x: nat, c: nat)
    requires x % 2 == (a + b) % 2
    ensures XorBits(x, c) == (a + b + c) % 2 + 2 * XorBits(x / 2, c / 2)
  {
    assert (x + c) % 2 == (a + b + c) % 2;
  }

  lemma XorSwap(a: nat, b: nat, c: nat, d: nat)
    ensures XorBits(XorBits(a, b), XorBits(c, d)) == XorBits(XorBits(a, c), XorBits(b, d))
  {
    XorAssoc(a, b, XorBits(c, d));
    XorAssoc(b, c, d);
    XorComm(b, c);
    XorAssoc(c, b, d);
    XorAssoc(a, c, XorBits(b, d));
  }

  lemma {:induction false} XorDouble(a: nat, b: nat)
    ensures XorBits(2 * a, 2 * b) == 2 * XorBits(a, b)
  {
    HalfOf(0, a);
    HalfOf(0, b);
  }

  predicate PowerOfTwo(m: nat)
  {
    m == 1 || (m > 1 && m % 2 == 0 && PowerOfTwo(m / 2))
  }

  /** The bit of weight m, the highest one present, is the exclusive or of those bits. */
  lemma {:induction false} XorTop(a: nat, b: nat, m: nat)
    requires PowerOfTwo(m) && a < 2 * m && b < 2 * m
    ensures XorBits(a, b) < 2 * m
    ensures XorBits(a, b) < m <==> (a < m <==> b < m)
  {
    XorZero(a);
    XorComm(0, b);
    XorZero(b);
    if m > 1 {
      XorTop(a / 2, b / 2, m / 2);
      XorSplit(a, b);
    } else {
      XorSelf(1);
    }
  }

  /** One step of the definition, from the parts of the arguments. */
  lemma {:induction false} XorStep(a: nat, b: nat, bit: nat, a1: nat, b1: nat)
    requires (a + b) % 2 == bit && a / 2 == a1 && b / 2 == b1
    ensures XorBits(a, b) == bit + 2 * XorBits(a1, b1)
  {
  }

  /** Low and high parts that do not overlap add up. */
  lemma {:induction false} XorDisjoint(lo: nat, hi: nat, m: nat)
    requires PowerOfTwo(m) && lo < m
    ensures XorBits(lo, hi * m) == lo + hi * m
    decreases m
  {
    if m == 1 {
      XorComm(0, hi);
      XorZero(hi);
    } else {
      var rest := hi * (m / 2);
      assert hi * m == 2 * rest;
      XorDisjoint(lo / 2, hi, m / 2);
      HalfOf(lo % 2, lo / 2 + rest);
      HalfOf(0, rest);
      XorStep(lo, 2 * rest, lo % 2, lo / 2, rest);
    }
  }

  /** One step of the definition, for arguments given by their low bit and the rest. */
  lemma {:induction false} XorPlus(p: nat, a: nat, q: nat, b: nat)
    requires p < 2 && q < 2
    ensures XorBits(p + 2 * a, q + 2 * b) == (p + q) % 2 + 2 * XorBits(a, b)
  {
    HalfOf(p, a);
    HalfOf(q, b);
    HalfOf((p + q) % 2, a + b + (p + q) / 2);
  }

  /** A low bit b before a number whose exclusive or with k is known. */
  lemma {:induction false} XorKeep(b: nat, a: nat, k: nat, r: nat)
    requires b < 2 && XorBits(a, k) == r
    ensures XorBits(b + 2 * a, 2 * k) == b + 2 * r
  {
    XorPlus(b, a, 0, k);
  }

  lemma {:induction false} XorFlip(b: nat, a: nat, k: nat, r: nat)
    requires b < 2 && XorBits(a, k) == r
    ensures XorBits(b + 2 * a, 1 + 2 * k) == 1 - b + 2 * r
  {
    XorPlus(b, a, 1, k);
  }

  /** Inclusive or, in the same way. */
  function OrBits(a: nat, b: nat): nat
    decreases a + b
  {
    if a == 0 && b == 0 then 0
    else (if a % 2 == 1 || b % 2 == 1 then 1 else 0) + 2 * OrBits(a / 2, b / 2)
  }

  lemma {:induction false} OrZero(a: nat)
    ensures OrBits(0, a) == a
  {
    if a != 0 {
      OrZero(a / 2);
    }
  }

  lemma {:induction false} OrStep(lo: nat, rest: nat)
    ensures OrBits(lo, 2 * rest) == lo % 2 + 2 * OrBits(lo / 2, rest)
  {
    HalfOf(0, rest);
  }

  lemma {:induction false} OrDisjoint(lo: nat, hi: nat, m: nat)
    requires PowerOfTwo(m) && lo < m
    ensures OrBits(lo, hi * m) == lo + hi * m
    decreases m
  {
    if m == 1 {
      OrZero(hi);
    } else {
      var rest := hi * (m / 2);
      assert hi * m == 2 * rest;
      OrDisjoint(lo / 2, hi, m / 2);
      OrStep(lo, rest);
    }
  }

  lemma {:induction false} OrComm(a: nat, b: nat)
    ensures OrBits(a, b) == OrBits(b, a)
    decreases a + b
  {
    if a != 0 || b != 0 {
      OrComm(a / 2, b / 2);
    }
  }

  /** Numbers without common bits add up. */
  lemma OrSum(lo: nat, sum: nat, hi: nat, m: nat)
    requires PowerOfTwo(m) && lo < m && sum == hi * m
    ensures OrBits(lo, sum) == OrBits(sum, lo) == lo + sum
  {
    OrDisjoint(lo, hi, m);
    OrComm(lo, sum);
  }
}
