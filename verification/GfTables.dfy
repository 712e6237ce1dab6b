/**
 The logarithm, power and inverse tables of the field.

 A table is kept in rows of sixteen consecutive bytes, so that one entry can be looked at
 without the others.  EXP ends with two bytes of padding that no index reaches.
 */
module GfTables {
  import opened Bits
  import opened ShiftMul
  import opened Gf256

  datatype Row = Row(b0: u8, b1: u8, b2: u8, b3: u8, b4: u8, b5: u8, b6: u8, b7: u8,
                     b8: u8, b9: u8, b10: u8, b11: u8, b12: u8, b13: u8, b14: u8, b15: u8) {
    function At(c: nat): u8
    {
      match c
      case 0 => b0 case 1 => b1 case 2 => b2 case 3 => b3 case 4 => b4
      case 5 => b5 case 6 => b6 case 7 => b7 case 8 => b8 case 9 => b9
      case 10 => b10 case 11 => b11 case 12 => b12 case 13 => b13 case 14 => b14
      case _ => b15
    }
  }

  const LOG_0 := Row(255, 0, 1, 25, 2, 50, 26, 198, 3, 223, 51, 238, 27, 104, 199, 75)
  const LOG_1 := Row(4, 100, 224, 14, 52, 141, 239, 129, 28, 193, 105, 248, 200, 8, 76, 113)
  const LOG_2 := Row(5, 138, 101, 47, 225, 36, 15, 33, 53, 147, 142, 218, 240, 18, 130, 69)
  const LOG_3 := Row(29, 181, 194, 125, 106, 39, 249, 185, 201, 154, 9, 120, 77, 228, 114, 166)
  const LOG_4 := Row(6, 191, 139, 98, 102, 221, 48, 253, 226, 152, 37, 179, 16, 145, 34, 136)
  const LOG_5 := Row(54, 208, 148, 206, 143, 150, 219, 189, 241, 210, 19, 92, 131, 56, 70, 64)
  const LOG_6 := Row(30, 66, 182, 163, 195, 72, 126, 110, 107, 58, 40, 84, 250, 133, 186, 61)
  const LOG_7 := Row(202, 94, 155, 159, 10, 21, 121, 43, 78, 212, 229, 172, 115, 243, 167, 87)
  const LOG_8 := Row(7, 112, 192, 247, 140, 128, 99, 13, 103, 74, 222, 237, 49, 197, 254, 24)
  const LOG_9 := Row(227, 165, 153, 119, 38, 184, 180, 124, 17, 68, 146, 217, 35, 32, 137, 46)
  const LOG_10 := Row(55, 63, 209, 91, 149, 188, 207, 205, 144, 135, 151, 178, 220, 252, 190, 97)
  const LOG_11 := Row(242, 86, 211, 171, 20, 42, 93, 158, 132, 60, 57, 83, 71, 109, 65, 162)
  const LOG_12 := Row(31, 45, 67, 216, 183, 123, 164, 118, 196, 23, 73, 236, 127, 12, 111, 246)
  const LOG_13 := Row(108, 161, 59, 82, 41, 157, 85, 170, 251, 96, 134, 177, 187, 204, 62, 90)
  const LOG_14 := Row(203, 89, 95, 176, 156, 169, 160, 81, 11, 245, 22, 235, 122, 117, 44, 215)
  const LOG_15 := Row(79, 174, 213, 233, 230, 231, 173, 232, 116, 214, 244, 234, 168, 80, 88, 175)

  const EXP_0 := Row(1, 2, 4, 8, 16, 32, 64, 128, 29, 58, 116, 232, 205, 135, 19, 38)
  const EXP_1 := Row(76, 152, 45, 90, 180, 117, 234, 201, 143, 3, 6, 12, 24, 48, 96, 192)
  const EXP_2 := Row(157, 39, 78, 156, 37, 74, 148, 53, 106, 212, 181, 119, 238, 193, 159, 35)
  const EXP_3 := Row(70, 140, 5, 10, 20, 40, 80, 160, 93, 186, 105, 210, 185, 111, 222, 161)
  const EXP_4 := Row(95, 190, 97, 194, 153, 47, 94, 188, 101, 202, 137, 15, 30, 60, 120, 240)
  const EXP_5 := Row(253, 231, 211, 187, 107, 214, 177, 127, 254, 225, 223, 163, 91, 182, 113, 226)
  const EXP_6 := Row(217, 175, 67, 134, 17, 34, 68, 136, 13, 26, 52, 104, 208, 189, 103, 206)
  const EXP_7 := Row(129, 31, 62, 124, 248, 237, 199, 147, 59, 118, 236, 197, 151, 51, 102, 204)
  const EXP_8 := Row(133, 23, 46, 92, 184, 109, 218, 169, 79, 158, 33, 66, 132, 21, 42, 84)
  const EXP_9 := Row(168, 77, 154, 41, 82, 164, 85, 170, 73, 146, 57, 114, 228, 213, 183, 115)
  const EXP_10 := Row(230, 209, 191, 99, 198, 145, 63, 126, 252, 229, 215, 179, 123, 246, 241, 255)
  const EXP_11 := Row(227, 219, 171, 75, 150, 49, 98, 196, 149, 55, 110, 220, 165, 87, 174, 65)
  const EXP_12 := Row(130, 25, 50, 100, 200, 141, 7, 14, 28, 56, 112, 224, 221, 167, 83, 166)
  const EXP_13 := Row(81, 162, 89, 178, 121, 242, 249, 239, 195, 155, 43, 86, 172, 69, 138, 9)
  const EXP_14 := Row(18, 36, 72, 144, 61, 122, 244, 245, 247, 243, 251, 235, 203, 139, 11, 22)
  const EXP_15 := Row(44, 88, 176, 125, 250, 233, 207, 131, 27, 54, 108, 216, 173, 71, 142, 1)
  const EXP_16 := Row(2, 4, 8, 16, 32, 64, 128, 29, 58, 116, 232, 205, 135, 19, 38, 76)
  const EXP_17 := Row(152, 45, 90, 180, 117, 234, 201, 143, 3, 6, 12, 24, 48, 96, 192, 157)
  const EXP_18 := Row(39, 78, 156, 37, 74, 148, 53, 106, 212, 181, 119, 238, 193, 159, 35, 70)
  const EXP_19 := Row(140, 5, 10, 20, 40, 80, 160, 93, 186, 105, 210, 185, 111, 222, 161, 95)
  const EXP_20 := Row(190, 97, 194, 153, 47, 94, 188, 101, 202, 137, 15, 30, 60, 120, 240, 253)
  const EXP_21 := Row(231, 211, 187, 107, 214, 177, 127, 254, 225, 223, 163, 91, 182, 113, 226, 217)
  const EXP_22 := Row(175, 67, 134, 17, 34, 68, 136, 13, 26, 52, 104, 208, 189, 103, 206, 129)
  const EXP_23 := Row(31, 62, 124, 248, 237, 199, 147, 59, 118, 236, 197, 151, 51, 102, 204, 133)
  const EXP_24 := Row(23, 46, 92, 184, 109, 218, 169, 79, 158, 33, 66, 132, 21, 42, 84, 168)
  const EXP_25 := Row(77, 154, 41, 82, 164, 85, 170, 73, 146, 57, 114, 228, 213, 183, 115, 230)
  const EXP_26 := Row(209, 191, 99, 198, 145, 63, 126, 252, 229, 215, 179, 123, 246, 241, 255, 227)
  const EXP_27 := Row(219, 171, 75, 150, 49, 98, 196, 149, 55, 110, 220, 165, 87, 174, 65, 130)
  const EXP_28 := Row(25, 50, 100, 200, 141, 7, 14, 28, 56, 112, 224, 221, 167, 83, 166, 81)
  const EXP_29 := Row(162, 89, 178, 121, 242, 249, 239, 195, 155, 43, 86, 172, 69, 138, 9, 18)
  const EXP_30 := Row(36, 72, 144, 61, 122, 244, 245, 247, 243, 251, 235, 203, 139, 11, 22, 44)
  const EXP_31 := Row(88, 176, 125, 250, 233, 207, 131, 27, 54, 108, 216, 173, 71, 142, 1, 2)

  const INV_0 := Row(0, 1, 142, 244, 71, 167, 122, 186, 173, 157, 221, 152, 61, 170, 93, 150)
  const INV_1 := Row(216, 114, 192, 88, 224, 62, 76, 102, 144, 222, 85, 128, 160, 131, 75, 42)
  const INV_2 := Row(108, 237, 57, 81, 96, 86, 44, 138, 112, 208, 31, 74, 38, 139, 51, 110)
  const INV_3 := Row(72, 137, 111, 46, 164, 195, 64, 94, 80, 34, 207, 169, 171, 12, 21, 225)
  const INV_4 := Row(54, 95, 248, 213, 146, 78, 166, 4, 48, 136, 43, 30, 22, 103, 69, 147)
  const INV_5 := Row(56, 35, 104, 140, 129, 26, 37, 97, 19, 193, 203, 99, 151, 14, 55, 65)
  const INV_6 := Row(36, 87, 202, 91, 185, 196, 23, 77, 82, 141, 239, 179, 32, 236, 47, 50)
  const INV_7 := Row(40, 209, 17, 217, 233, 251, 218, 121, 219, 119, 6, 187, 132, 205, 254, 252)
  const INV_8 := Row(27, 84, 161, 29, 124, 204, 228, 176, 73, 49, 39, 45, 83, 105, 2, 245)
  const INV_9 := Row(24, 223, 68, 79, 155, 188, 15, 92, 11, 220, 189, 148, 172, 9, 199, 162)
  const INV_10 := Row(28, 130, 159, 198, 52, 194, 70, 5, 206, 59, 13, 60, 156, 8, 190, 183)
  const INV_11 := Row(135, 229, 238, 107, 235, 242, 191, 175, 197, 100, 7, 123, 149, 154, 174, 182)
  const INV_12 := Row(18, 89, 165, 53, 101, 184, 163, 158, 210, 247, 98, 90, 133, 125, 168, 58)
  const INV_13 := Row(41, 113, 200, 246, 249, 67, 215, 214, 16, 115, 118, 120, 153, 10, 25, 145)
  const INV_14 := Row(20, 63, 230, 240, 134, 177, 226, 241, 250, 116, 243, 180, 109, 33, 178, 106)
  const INV_15 := Row(227, 231, 181, 234, 3, 143, 211, 201, 66, 212, 232, 117, 127, 255, 126, 253)

  function LogRow(r: nat): Row
  {
    match r
    case 0 => LOG_0
    case 1 => LOG_1
    case 2 => LOG_2
    case 3 => LOG_3
    case 4 => LOG_4
    case 5 => LOG_5
    case 6 => LOG_6
    case 7 => LOG_7
    case 8 => LOG_8
    case 9 => LOG_9
    case 10 => LOG_10
    case 11 => LOG_11
    case 12 => LOG_12
    case 13 => LOG_13
    case 14 => LOG_14
    case _ => LOG_15
  }

  function ExpRow(r: nat): Row
  {
    match r
    case 0 => EXP_0
    case 1 => EXP_1
    case 2 => EXP_2
    case 3 => EXP_3
    case 4 => EXP_4
    case 5 => EXP_5
    case 6 => EXP_6
    case 7 => EXP_7
    case 8 => EXP_8
    case 9 => EXP_9
    case 10 => EXP_10
    case 11 => EXP_11
    case 12 => EXP_12
    case 13 => EXP_13
    case 14 => EXP_14
    case 15 => EXP_15
    case 16 => EXP_16
    case 17 => EXP_17
    case 18 => EXP_18
    case 19 => EXP_19
    case 20 => EXP_20
    case 21 => EXP_21
    case 22 => EXP_22
    case 23 => EXP_23
    case 24 => EXP_24
    case 25 => EXP_25
    case 26 => EXP_26
    case 27 => EXP_27
    case 28 => EXP_28
    case 29 => EXP_29
    case 30 => EXP_30
    case _ => EXP_31
  }

  function InvRow(r: nat): Row
  {
    match r
    case 0 => INV_0
    case 1 => INV_1
    case 2 => INV_2
    case 3 => INV_3
    case 4 => INV_4
    case 5 => INV_5
    case 6 => INV_6
    case 7 => INV_7
    case 8 => INV_8
    case 9 => INV_9
    case 10 => INV_10
    case 11 => INV_11
    case 12 => INV_12
    case 13 => INV_13
    case 14 => INV_14
    case _ => INV_15
  }

  function LogTable(x: u8): u8 { LogRow(x / 16).At(x % 16) }

  function ExpTable(i: nat): u8
    requires i < 510
  {
    ExpRow(i / 16).At(i % 16)
  }

  function InvTable(x: u8): u8 { InvRow(x / 16).At(x % 16) }

  // Each entry of EXP is twice the entry before it.

  /** XTime without exclusive or: adding 285 flips the bits of weight 1, 4, 8 and 16. */
  function Twice(a: u8): int
  {
    if a < 128 then 2 * a else 2 * a - 227 - 8 * (a / 2 % 8)
  }

  lemma {:induction false} XorTopBit(a: nat)
    requires 8 <= a < 16
    ensures XorBits(a, 8) == a - 8
  {
    XorDisjoint(a - 8, 1, 8);
    XorOut(a - 8, 8);
  }

  lemma XorOut(a: nat, b: nat)
    ensures XorBits(XorBits(a, b), b) == a
  {
    XorAssoc(a, b, b);
    XorSelf(b);
    XorZero(a);
  }

  lemma {:induction false} FlipThree(b1: nat, b2: nat, b3: nat, top: nat)
    requires b1 < 2 && b2 < 2 && b3 < 2 && 8 <= top < 16
    ensures XorBits(b1 + 2 * (b2 + 2 * (b3 + 2 * top)), 71) == 1 - b1 + 2 * (1 - b2 + 2 * (1 - b3 + 2 * (top - 8)))
  {
    XorTopBit(top);
    XorFlip(b3, top, 8, top - 8);
    XorFlip(b2, b3 + 2 * top, 17, 1 - b3 + 2 * (top - 8));
    XorFlip(b1, b2 + 2 * (b3 + 2 * top), 35, 1 - b2 + 2 * (1 - b3 + 2 * (top - 8)));
  }

  lemma {:induction false} FlipBelow(b: nat, r: nat)
    requires XorBits(b, 142) == r
    ensures XorBits(2 * b, 285) == 1 + 2 * r
  {
    XorFlip(0, b, 142, r);
  }

  lemma {:induction false} TwiceOfBits(b0: nat, a1: nat, r: nat)
    requires b0 < 2 && XorBits(a1, 71) == r
    ensures XorBits(2 * (b0 + 2 * a1), 285) == 1 + 2 * (b0 + 2 * r)
  {
    XorKeep(b0, a1, 71, r);
    FlipBelow(b0 + 2 * a1, b0 + 2 * r);
  }

  lemma {:induction false} TwiceIsXTime(a: u8)
    ensures Twice(a) == XTime(a)
  {
    if a >= 128 {
      var a1 := a / 2;
      var a2 := a1 / 2;
      var a3 := a2 / 2;
      var top := a3 / 2;
      var mid := a1 % 2 + 2 * (a2 % 2) + 4 * (a3 % 2);
      assert a1 == mid + 8 * top;
      assert a1 % 8 == mid;
      FlipThree(a1 % 2, a2 % 2, a3 % 2, top);
      TwiceOfBits(a % 2, a1, 7 - mid + 8 * (top - 8));
    }
  }

  ghost predicate RowDoubles(row: Row, next: u8)
  {
    && row.b1 == Twice(row.b0)
    && row.b2 == Twice(row.b1)
    && row.b3 == Twice(row.b2)
    && row.b4 == Twice(row.b3)
    && row.b5 == Twice(row.b4)
    && row.b6 == Twice(row.b5)
    && row.b7 == Twice(row.b6)
    && row.b8 == Twice(row.b7)
    && row.b9 == Twice(row.b8)
    && row.b10 == Twice(row.b9)
    && row.b11 == Twice(row.b10)
    && row.b12 == Twice(row.b11)
    && row.b13 == Twice(row.b12)
    && row.b14 == Twice(row.b13)
    && row.b15 == Twice(row.b14)
    && next == Twice(row.b15)
  }

  lemma RowDoublesAt(row: Row, next: u8, c: nat)
    requires RowDoubles(row, next) && c < 16
    ensures (if c < 15 then row.At(c + 1) else next) == XTime(row.At(c))
  {
    TwiceIsXTime(row.At(c));
  }

  lemma RowsDouble0()
    ensures RowDoubles(EXP_0, EXP_1.b0)
    ensures RowDoubles(EXP_1, EXP_2.b0)
    ensures RowDoubles(EXP_2, EXP_3.b0)
    ensures RowDoubles(EXP_3, EXP_4.b0)
  {
  }

  lemma RowsDouble4()
    ensures RowDoubles(EXP_4, EXP_5.b0)
    ensures RowDoubles(EXP_5, EXP_6.b0)
    ensures RowDoubles(EXP_6, EXP_7.b0)
    ensures RowDoubles(EXP_7, EXP_8.b0)
  {
  }

  lemma RowsDouble8()
    ensures RowDoubles(EXP_8, EXP_9.b0)
    ensures RowDoubles(EXP_9, EXP_10.b0)
    ensures RowDoubles(EXP_10, EXP_11.b0)
    ensures RowDoubles(EXP_11, EXP_12.b0)
  {
  }

  lemma RowsDouble12()
    ensures RowDoubles(EXP_12, EXP_13.b0)
    ensures RowDoubles(EXP_13, EXP_14.b0)
    ensures RowDoubles(EXP_14, EXP_15.b0)
    ensures RowDoubles(EXP_15, EXP_16.b0)
  {
  }

  lemma RowsDouble16()
    ensures RowDoubles(EXP_16, EXP_17.b0)
    ensures RowDoubles(EXP_17, EXP_18.b0)
    ensures RowDoubles(EXP_18, EXP_19.b0)
    ensures RowDoubles(EXP_19, EXP_20.b0)
  {
  }

  lemma RowsDouble20()
    ensures RowDoubles(EXP_20, EXP_21.b0)
    ensures RowDoubles(EXP_21, EXP_22.b0)
    ensures RowDoubles(EXP_22, EXP_23.b0)
    ensures RowDoubles(EXP_23, EXP_24.b0)
  {
  }

  lemma RowsDouble24()
    ensures RowDoubles(EXP_24, EXP_25.b0)
    ensures RowDoubles(EXP_25, EXP_26.b0)
    ensures RowDoubles(EXP_26, EXP_27.b0)
    ensures RowDoubles(EXP_27, EXP_28.b0)
  {
  }

  lemma RowsDouble28()
    ensures RowDoubles(EXP_28, EXP_29.b0)
    ensures RowDoubles(EXP_29, EXP_30.b0)
    ensures RowDoubles(EXP_30, EXP_31.b0)
    ensures RowDoubles(EXP_31, 4)
  {
  }

  lemma RowDoublesNext(r: nat)
    requires r < 32
    ensures RowDoubles(ExpRow(r), if r < 31 then ExpRow(r + 1).b0 else 4)
  {
    if r < 4 {
      RowsDouble0();
    } else if r < 8 {
      RowsDouble4();
    } else if r < 12 {
      RowsDouble8();
    } else if r < 16 {
      RowsDouble12();
    } else if r < 20 {
      RowsDouble16();
    } else if r < 24 {
      RowsDouble20();
    } else if r < 28 {
      RowsDouble24();
    } else {
      RowsDouble28();
    }
  }

  lemma ExpDoubles(i: nat)
    requires i < 509
    ensures ExpTable(i + 1) == XTime(ExpTable(i))
  {
    var r, c := i / 16, i % 16;
    RowDoublesNext(r);
    RowDoublesAt(ExpRow(r), if r < 31 then ExpRow(r + 1).b0 else 4, c);
    NextIndex(i);
  }

  lemma NextIndex(i: nat)
    ensures i % 16 < 15 ==> (i + 1) / 16 == i / 16 && (i + 1) % 16 == i % 16 + 1
    ensures i % 16 == 15 ==> (i + 1) / 16 == i / 16 + 1 && (i + 1) % 16 == 0
  {
  }

  /** EXP lists the powers of two. */
  ghost function Power(n: nat): u8
  {
    if n == 0 then 1 else XTime(Power(n - 1))
  }

  lemma {:induction false} ExpIsPower(i: nat)
    requires i < 510
    ensures ExpTable(i) == Power(i)
  {
    if i > 0 {
      ExpIsPower(i - 1);
      ExpDoubles(i - 1);
    }
  }

  lemma {:induction false} PowerSum(m: nat, n: nat)
    ensures Mul(Power(m), Power(n)) == Power(m + n)
    decreases m
  {
    MulDefinition(Power(m), Power(n));
    if m == 0 {
      ShiftXorOneLeft(Power(n));
    } else {
      PowerSum(m - 1, n);
      MulDefinition(Power(m - 1), Power(n));
      ShiftXorXTime(Power(m - 1), Power(n));
    }
  }

  // LOG and INV are checked against EXP byte by byte: l is the logarithm of x and v its inverse.

  ghost predicate Linked(x: int, l: int, v: int)
  {
    0 <= l < 255 && ExpTable(l) == x && ExpTable(255 - l) == v
  }

  /** p holds of the entries of two rows that start at index 16 * r; index 0 is left out. */
  ghost predicate RowHolds(p: (int, int, int) -> bool, r: nat, log: Row, inv: Row)
  {
    && (r > 0 ==> p(16 * r, log.b0, inv.b0))
    && p(16 * r + 1, log.b1, inv.b1)
    && p(16 * r + 2, log.b2, inv.b2)
    && p(16 * r + 3, log.b3, inv.b3)
    && p(16 * r + 4, log.b4, inv.b4)
    && p(16 * r + 5, log.b5, inv.b5)
    && p(16 * r + 6, log.b6, inv.b6)
    && p(16 * r + 7, log.b7, inv.b7)
    && p(16 * r + 8, log.b8, inv.b8)
    && p(16 * r + 9, log.b9, inv.b9)
    && p(16 * r + 10, log.b10, inv.b10)
    && p(16 * r + 11, log.b11, inv.b11)
    && p(16 * r + 12, log.b12, inv.b12)
    && p(16 * r + 13, log.b13, inv.b13)
    && p(16 * r + 14, log.b14, inv.b14)
    && p(16 * r + 15, log.b15, inv.b15)
  }

  lemma RowHoldsAt(p: (int, int, int) -> bool, r: nat, log: Row, inv: Row, c: nat)
    requires RowHolds(p, r, log, inv) && c < 16 && (r > 0 || c > 0)
    ensures p(16 * r + c, log.At(c), inv.At(c))
  {
  }

  ghost predicate EntryLinked(r: nat, c: nat)
  {
    Linked(16 * r + c, LogRow(r).At(c), InvRow(r).At(c))
  }

  ghost predicate RowLinked(r: nat)
  {
    forall c: nat | c < 16 && (r > 0 || c > 0) :: EntryLinked(r, c)
  }

  lemma LinkRow(r: nat)
    requires RowHolds(Linked, r, LogRow(r), InvRow(r))
    ensures RowLinked(r)
  {
    forall c: nat | c < 16 && (r > 0 || c > 0)
      ensures EntryLinked(r, c)
    {
      RowHoldsAt(Linked, r, LogRow(r), InvRow(r), c);
    }
  }

  lemma RowLinked0()
    ensures RowLinked(0)
  {
    assert Linked(1, 0, 1); assert Linked(2, 1, 142); assert Linked(3, 25, 244);
    assert Linked(4, 2, 71); assert Linked(5, 50, 167); assert Linked(6, 26, 122);
    assert Linked(7, 198, 186); assert Linked(8, 3, 173); assert Linked(9, 223, 157);
    assert Linked(10, 51, 221); assert Linked(11, 238, 152); assert Linked(12, 27, 61);
    assert Linked(13, 104, 170); assert Linked(14, 199, 93); assert Linked(15, 75, 150);
    assert RowHolds(Linked, 0, LOG_0, INV_0);
    LinkRow(0);
  }

  lemma RowLinked1()
    ensures RowLinked(1)
  {
    assert Linked(16, 4, 216); assert Linked(17, 100, 114); assert Linked(18, 224, 192);
    assert Linked(19, 14, 88); assert Linked(20, 52, 224); assert Linked(21, 141, 62);
    assert Linked(22, 239, 76); assert Linked(23, 129, 102); assert Linked(24, 28, 144);
    assert Linked(25, 193, 222); assert Linked(26, 105, 85); assert Linked(27, 248, 128);
    assert Linked(28, 200, 160); assert Linked(29, 8, 131); assert Linked(30, 76, 75);
    assert Linked(31, 113, 42);
    assert RowHolds(Linked, 1, LOG_1, INV_1);
    LinkRow(1);
  }

  lemma RowLinked2()
    ensures RowLinked(2)
  {
    assert Linked(32, 5, 108); assert Linked(33, 138, 237); assert Linked(34, 101, 57);
    assert Linked(35, 47, 81); assert Linked(36, 225, 96); assert Linked(37, 36, 86);
    assert Linked(38, 15, 44); assert Linked(39, 33, 138); assert Linked(40, 53, 112);
    assert Linked(41, 147, 208); assert Linked(42, 142, 31); assert Linked(43, 218, 74);
    assert Linked(44, 240, 38); assert Linked(45, 18, 139); assert Linked(46, 130, 51);
    assert Linked(47, 69, 110);
    assert RowHolds(Linked, 2, LOG_2, INV_2);
    LinkRow(2);
  }

  lemma RowLinked3()
    ensures RowLinked(3)
  {
    assert Linked(48, 29, 72); assert Linked(49, 181, 137); assert Linked(50, 194, 111);
    assert Linked(51, 125, 46); assert Linked(52, 106, 164); assert Linked(53, 39, 195);
    assert Linked(54, 249, 64); assert Linked(55, 185, 94); assert Linked(56, 201, 80);
    assert Linked(57, 154, 34); assert Linked(58, 9, 207); assert Linked(59, 120, 169);
    assert Linked(60, 77, 171); assert Linked(61, 228, 12); assert Linked(62, 114, 21);
    assert Linked(63, 166, 225);
    assert RowHolds(Linked, 3, LOG_3, INV_3);
    LinkRow(3);
  }

  lemma RowLinked4()
    ensures RowLinked(4)
  {
    assert Linked(64, 6, 54); assert Linked(65, 191, 95); assert Linked(66, 139, 248);
    assert Linked(67, 98, 213); assert Linked(68, 102, 146); assert Linked(69, 221, 78);
    assert Linked(70, 48, 166); assert Linked(71, 253, 4); assert Linked(72, 226, 48);
    assert Linked(73, 152, 136); assert Linked(74, 37, 43); assert Linked(75, 179, 30);
    assert Linked(76, 16, 22); assert Linked(77, 145, 103); assert Linked(78, 34, 69);
    assert Linked(79, 136, 147);
    assert RowHolds(Linked, 4, LOG_4, INV_4);
    LinkRow(4);
  }

  lemma RowLinked5()
    ensures RowLinked(5)
  {
    assert Linked(80, 54, 56); assert Linked(81, 208, 35); assert Linked(82, 148, 104);
    assert Linked(83, 206, 140); assert Linked(84, 143, 129); assert Linked(85, 150, 26);
    assert Linked(86, 219, 37); assert Linked(87, 189, 97); assert Linked(88, 241, 19);
    assert Linked(89, 210, 193); assert Linked(90, 19, 203); assert Linked(91, 92, 99);
    assert Linked(92, 131, 151); assert Linked(93, 56, 14); assert Linked(94, 70, 55);
    assert Linked(95, 64, 65);
    assert RowHolds(Linked, 5, LOG_5, INV_5);
    LinkRow(5);
  }

  lemma RowLinked6()
    ensures RowLinked(6)
  {
    assert Linked(96, 30, 36); assert Linked(97, 66, 87); assert Linked(98, 182, 202);
    assert Linked(99, 163, 91); assert Linked(100, 195, 185); assert Linked(101, 72, 196);
    assert Linked(102, 126, 23); assert Linked(103, 110, 77); assert Linked(104, 107, 82);
    assert Linked(105, 58, 141); assert Linked(106, 40, 239); assert Linked(107, 84, 179);
    assert Linked(108, 250, 32); assert Linked(109, 133, 236); assert Linked(110, 186, 47);
    assert Linked(111, 61, 50);
    assert RowHolds(Linked, 6, LOG_6, INV_6);
    LinkRow(6);
  }

  lemma RowLinked7()
    ensures RowLinked(7)
  {
    assert Linked(112, 202, 40); assert Linked(113, 94, 209); assert Linked(114, 155, 17);
    assert Linked(115, 159, 217); assert Linked(116, 10, 233); assert Linked(117, 21, 251);
    assert Linked(118, 121, 218); assert Linked(119, 43, 121); assert Linked(120, 78, 219);
    assert Linked(121, 212, 119); assert Linked(122, 229, 6); assert Linked(123, 172, 187);
    assert Linked(124, 115, 132); assert Linked(125, 243, 205); assert Linked(126, 167, 254);
    assert Linked(127, 87, 252);
    assert RowHolds(Linked, 7, LOG_7, INV_7);
    LinkRow(7);
  }

  lemma RowLinked8()
    ensures RowLinked(8)
  {
    assert Linked(128, 7, 27); assert Linked(129, 112, 84); assert Linked(130, 192, 161);
    assert Linked(131, 247, 29); assert Linked(132, 140, 124); assert Linked(133, 128, 204);
    assert Linked(134, 99, 228); assert Linked(135, 13, 176); assert Linked(136, 103, 73);
    assert Linked(137, 74, 49); assert Linked(138, 222, 39); assert Linked(139, 237, 45);
    assert Linked(140, 49, 83); assert Linked(141, 197, 105); assert Linked(142, 254, 2);
    assert Linked(143, 24, 245);
    assert RowHolds(Linked, 8, LOG_8, INV_8);
    LinkRow(8);
  }

  lemma RowLinked9()
    ensures RowLinked(9)
  {
    assert Linked(144, 227, 24); assert Linked(145, 165, 223); assert Linked(146, 153, 68);
    assert Linked(147, 119, 79); assert Linked(148, 38, 155); assert Linked(149, 184, 188);
    assert Linked(150, 180, 15); assert Linked(151, 124, 92); assert Linked(152, 17, 11);
    assert Linked(153, 68, 220); assert Linked(154, 146, 189); assert Linked(155, 217, 148);
    assert Linked(156, 35, 172); assert Linked(157, 32, 9); assert Linked(158, 137, 199);
    assert Linked(159, 46, 162);
    assert RowHolds(Linked, 9, LOG_9, INV_9);
    LinkRow(9);
  }

  lemma RowLinked10()
    ensures RowLinked(10)
  {
    assert Linked(160, 55, 28); assert Linked(161, 63, 130); assert Linked(162, 209, 159);
    assert Linked(163, 91, 198); assert Linked(164, 149, 52); assert Linked(165, 188, 194);
    assert Linked(166, 207, 70); assert Linked(167, 205, 5); assert Linked(168, 144, 206);
    assert Linked(169, 135, 59); assert Linked(170, 151, 13); assert Linked(171, 178, 60);
    assert Linked(172, 220, 156); assert Linked(173, 252, 8); assert Linked(174, 190, 190);
    assert Linked(175, 97, 183);
    assert RowHolds(Linked, 10, LOG_10, INV_10);
    LinkRow(10);
  }

  lemma RowLinked11()
    ensures RowLinked(11)
  {
    assert Linked(176, 242, 135); assert Linked(177, 86, 229); assert Linked(178, 211, 238);
    assert Linked(179, 171, 107); assert Linked(180, 20, 235); assert Linked(181, 42, 242);
    assert Linked(182, 93, 191); assert Linked(183, 158, 175); assert Linked(184, 132, 197);
    assert Linked(185, 60, 100); assert Linked(186, 57, 7); assert Linked(187, 83, 123);
    assert Linked(188, 71, 149); assert Linked(189, 109, 154); assert Linked(190, 65, 174);
    assert Linked(191, 162, 182);
    assert RowHolds(Linked, 11, LOG_11, INV_11);
    LinkRow(11);
  }

  lemma RowLinked12()
    ensures RowLinked(12)
  {
    assert Linked(192, 31, 18); assert Linked(193, 45, 89); assert Linked(194, 67, 165);
    assert Linked(195, 216, 53); assert Linked(196, 183, 101); assert Linked(197, 123, 184);
    assert Linked(198, 164, 163); assert Linked(199, 118, 158); assert Linked(200, 196, 210);
    assert Linked(201, 23, 247); assert Linked(202, 73, 98); assert Linked(203, 236, 90);
    assert Linked(204, 127, 133); assert Linked(205, 12, 125); assert Linked(206, 111, 168);
    assert Linked(207, 246, 58);
    assert RowHolds(Linked, 12, LOG_12, INV_12);
    LinkRow(12);
  }

  lemma RowLinked13()
    ensures RowLinked(13)
  {
    assert Linked(208, 108, 41); assert Linked(209, 161, 113); assert Linked(210, 59, 200);
    assert Linked(211, 82, 246); assert Linked(212, 41, 249); assert Linked(213, 157, 67);
    assert Linked(214, 85, 215); assert Linked(215, 170, 214); assert Linked(216, 251, 16);
    assert Linked(217, 96, 115); assert Linked(218, 134, 118); assert Linked(219, 177, 120);
    assert Linked(220, 187, 153); assert Linked(221, 204, 10); assert Linked(222, 62, 25);
    assert Linked(223, 90, 145);
    assert RowHolds(Linked, 13, LOG_13, INV_13);
    LinkRow(13);
  }

  lemma RowLinked14()
    ensures RowLinked(14)
  {
    assert Linked(224, 203, 20); assert Linked(225, 89, 63); assert Linked(226, 95, 230);
    assert Linked(227, 176, 240); assert Linked(228, 156, 134); assert Linked(229, 169, 177);
    assert Linked(230, 160, 226); assert Linked(231, 81, 241); assert Linked(232, 11, 250);
    assert Linked(233, 245, 116); assert Linked(234, 22, 243); assert Linked(235, 235, 180);
    assert Linked(236, 122, 109); assert Linked(237, 117, 33); assert Linked(238, 44, 178);
    assert Linked(239, 215, 106);
    assert RowHolds(Linked, 14, LOG_14, INV_14);
    LinkRow(14);
  }

  lemma RowLinked15()
    ensures RowLinked(15)
  {
    assert Linked(240, 79, 227); assert Linked(241, 174, 231); assert Linked(242, 213, 181);
    assert Linked(243, 233, 234); assert Linked(244, 230, 3); assert Linked(245, 231, 143);
    assert Linked(246, 173, 211); assert Linked(247, 232, 201); assert Linked(248, 116, 66);
    assert Linked(249, 214, 212); assert Linked(250, 244, 232); assert Linked(251, 234, 117);
    assert Linked(252, 168, 127); assert Linked(253, 80, 255); assert Linked(254, 88, 126);
    assert Linked(255, 175, 253);
    assert RowHolds(Linked, 15, LOG_15, INV_15);
    LinkRow(15);
  }

  lemma RowsLinked(r: nat)
    requires r < 16
    ensures RowLinked(r)
  {
    match r
    case 0 => RowLinked0();
    case 1 => RowLinked1();
    case 2 => RowLinked2();
    case 3 => RowLinked3();
    case 4 => RowLinked4();
    case 5 => RowLinked5();
    case 6 => RowLinked6();
    case 7 => RowLinked7();
    case 8 => RowLinked8();
    case 9 => RowLinked9();
    case 10 => RowLinked10();
    case 11 => RowLinked11();
    case 12 => RowLinked12();
    case 13 => RowLinked13();
    case 14 => RowLinked14();
    case _ => RowLinked15();
  }

  lemma LinkedPowers(x: int, l: int, v: int)
    requires Linked(x, l, v)
    ensures 0 <= l < 255 && Power(l) == x && Power(255 - l) == v
  {
    ExpIsPower(l);
    ExpIsPower(255 - l);
  }

  // What the tables are for.

  lemma LogIsLogarithm(x: u8)
    requires x != 0
    ensures LogTable(x) < 255 && Power(LogTable(x)) == x && InvTable(x) == Power(255 - LogTable(x))
  {
    var r, c := x / 16, x % 16;
    RowsLinked(r);
    assert EntryLinked(r, c);
    LinkedPowers(x, LogTable(x), InvTable(x));
  }

  lemma PowerOrder()
    ensures Power(255) == 1
  {
    ExpIsPower(255);
  }

  lemma InverseTable(x: u8)
    requires x != 0
    ensures Mul(x, InvTable(x)) == 1
  {
    LogIsLogarithm(x);
    PowerSum(LogTable(x), 255 - LogTable(x));
    PowerOrder();
  }

  lemma LogExpProduct(a: u8, b: u8)
    requires a != 0 && b != 0
    ensures LogTable(a) + LogTable(b) < 510
    ensures ExpTable(LogTable(a) + LogTable(b)) == Mul(a, b)
  {
    LogIsLogarithm(a);
    LogIsLogarithm(b);
    PowerSum(LogTable(a), LogTable(b));
    ExpIsPower(LogTable(a) + LogTable(b));
  }

  /** Multiplication by logarithms, as the table-free build of the library does it. */
  function LogExpMul(a: u8, b: u8): (r: u8)
    ensures r == Mul(a, b)
  {
    if a == 0 || b == 0 then
      MulZero(a);
      MulZero(b);
      0
    else
      LogExpProduct(a, b);
      ExpTable(LogTable(a) + LogTable(b))
  }
}
