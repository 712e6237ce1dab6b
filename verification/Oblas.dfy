/**
 The byte loops under the erasure code: a scalar form, and a form that multiplies whole vector
 registers with two lookups of sixteen entries each.
 */
module Oblas {
  import opened Bits
  import opened ShiftMul
  import opened Gf256
  import opened Inverses
  import opened Vectors
  import opened Memory

  /** The instruction sets the library is built for, and the bytes in a register of each. */
  datatype Isa = Scalar | Ssse3 | Avx2 | Avx512 {
    function Width(): (w: nat)
      ensures w > 0 && w % 8 == 0
    {
      match this
      case Scalar => 8
      case Ssse3 => 16
      case Avx2 => 32
      case Avx512 => 64
    }
  }

  // Single bytes

  method Xor(x: u8, y: u8) returns (r: u8)
    ensures r == Add(x, y)
  {
    AddDefinition(x, y);
    r := XorByte(x, y);
  }

  /** An entry of the multiplication table. */
  method Multiply(u: u8, x: u8) returns (r: u8)
    ensures r == Mul(u, x)
  {
    MulDefinition(u, x);
    r := ShiftXor(u, x);
  }

  // Changing a stretch of k bytes part by part, from the bytes of another stretch

  /**
   The first i bytes of the stretch at off in was have become those of t.  now is the buffer of
   the stretch; rest is that of the second stretch, at from in src, of which only the bytes not
   yet used matter, so that both may lie in one buffer.
   */
  ghost predicate DoneUpTo(now: seq<u8>, rest: seq<u8>, was: seq<u8>, src: seq<u8>,
                           off: nat, from: nat, t: seq<u8>, i: nat)
    requires off + |t| <= |was| && from + |t| <= |src| && i <= |t|
  {
    && now == Splice(was, off, t[..i])
    && |rest| == |src|
    && rest[from + i..from + |t|] == src[from + i..from + |t|]
  }

  /** What the next n bytes of the two stretches are. */
  lemma PartsUnchanged(now: seq<u8>, rest: seq<u8>, was: seq<u8>, src: seq<u8>,
                       off: nat, from: nat, t: seq<u8>, i: nat, n: nat)
    requires off + |t| <= |was| && from + |t| <= |src| && i + n <= |t|
    requires DoneUpTo(now, rest, was, src, off, from, t, i)
    ensures now[off + i..off + i + n] == was[off + i..off + i + n]
    ensures rest[from + i..from + i + n] == src[from + i..from + i + n]
  {
    SpliceAt(was, off, t[..i], off + i, n);
    SliceOfSlice(rest, from + i, from + |t|, 0, n);
    SliceOfSlice(src, from + i, from + |t|, 0, n);
  }

  lemma DoneNext(now: seq<u8>, rest: seq<u8>, was: seq<u8>, src: seq<u8>,
                 off: nat, from: nat, t: seq<u8>, i: nat, n: nat, next: seq<u8>)
    requires off + |t| <= |was| && from + |t| <= |src| && i + n <= |t|
    requires DoneUpTo(now, rest, was, src, off, from, t, i)
    requires next == Splice(now, off + i, t[i..i + n])
    ensures DoneUpTo(next, rest, was, src, off, from, t, i + n)
    ensures now == rest && (off + |t| <= from || from + |t| <= off) ==>
              DoneUpTo(next, next, was, src, off, from, t, i + n)
  {
    SpliceMore(was, off, t, i, n);
    SliceOfSlice(rest, from + i, from + |t|, n, |t| - i);
    SliceOfSlice(src, from + i, from + |t|, n, |t| - i);
    if now == rest && (off + |t| <= from || from + |t| <= off) {
      SpliceAt(now, off + i, t[i..i + n], from + i + n, |t| - i - n);
    }
  }

  /** The n bytes of t from i on are those of the stretch in was with u times those in src added. */
  ghost predicate PartIsSum(t: seq<u8>, was: seq<u8>, src: seq<u8>, off: nat, from: nat, u: u8, i: nat, n: nat)
    requires off + |t| <= |was| && from + |t| <= |src|
  {
    i + n <= |t| ==>
      AddScaled(was[off + i..off + i + n], src[from + i..from + i + n], u) == t[i..i + n]
  }

  ghost predicate IsSum(t: seq<u8>, was: seq<u8>, src: seq<u8>, off: nat, from: nat, u: u8)
    requires off + |t| <= |was| && from + |t| <= |src|
  {
    forall i: nat, n: nat :: PartIsSum(t, was, src, off, from, u, i, n)
  }

  lemma SumOfStretches(was: seq<u8>, src: seq<u8>, off: nat, from: nat, u: u8, k: nat)
    requires off + k <= |was| && from + k <= |src|
    ensures IsSum(AddScaled(was[off..off + k], src[from..from + k], u), was, src, off, from, u)
  {
    var t := AddScaled(was[off..off + k], src[from..from + k], u);
    forall i: nat, n: nat
      ensures PartIsSum(t, was, src, off, from, u, i, n)
    {
      if i + n <= k {
        SliceOfSlice(was, off, off + k, i, i + n);
        SliceOfSlice(src, from, from + k, i, i + n);
      }
    }
  }

  /** part is the sum of the stretch of now at off and u times that of rest at from. */
  ghost predicate SumAt(now: seq<u8>, rest: seq<u8>, off: nat, from: nat, u: u8, part: seq<u8>)
  {
    && off + |part| <= |now| && from + |part| <= |rest|
    && AddScaled(now[off..off + |part|], rest[from..from + |part|], u) == part
  }

  lemma NextPart(now: seq<u8>, rest: seq<u8>, was: seq<u8>, src: seq<u8>,
                 off: nat, from: nat, t: seq<u8>, u: u8, i: nat, n: nat)
    requires off + |t| <= |was| && from + |t| <= |src| && i + n <= |t|
    requires IsSum(t, was, src, off, from, u) && DoneUpTo(now, rest, was, src, off, from, t, i)
    ensures SumAt(now, rest, off + i, from + i, u, t[i..i + n])
  {
    PartsUnchanged(now, rest, was, src, off, from, t, i, n);
    assert PartIsSum(t, was, src, off, from, u, i, n);
  }

  // Scalar loops

  lemma SumWithOne(x: Row, y: Row, i: nat)
    requires i < |x| == |y|
    ensures AddScaled(x, y, 1)[i] == Add(x[i], y[i])
  {
    MulOne(y[i]);
  }

  /** a ^= b */
  method XorBytes(a: Ptr, b: Ptr, k: nat)
    requires a.Has(k) && b.Has(k) && a.ApartFrom(b, k)
    modifies a.buf
    ensures a.buf[..] == Splice(old(a.buf[..]), a.off, AddScaled(old(a.Bytes(k)), old(b.Bytes(k)), 1))
  {
    ghost var target := AddScaled(a.Bytes(k), b.Bytes(k), 1);
    for i := 0 to k
      invariant forall p :: a.off <= p < a.off + i ==> a.buf[p] == target[p - a.off]
      invariant forall p :: 0 <= p < a.buf.Length && !(a.off <= p < a.off + i) ==> a.buf[p] == old(a.buf[p])
    {
      SumWithOne(old(a.Bytes(k)), old(b.Bytes(k)), i);
      var sum := Xor(a.buf[a.off + i], b.buf[b.off + i]);
      a.buf[a.off + i] := sum;
    }
  }

  /** a ^= u * b */
  method MulAddBytes(a: Ptr, b: Ptr, u: u8, k: nat)
    requires a.Has(k) && b.Has(k) && a.ApartFrom(b, k)
    modifies a.buf
    ensures a.buf[..] == Splice(old(a.buf[..]), a.off, AddScaled(old(a.Bytes(k)), old(b.Bytes(k)), u))
  {
    ghost var target := AddScaled(a.Bytes(k), b.Bytes(k), u);
    for i := 0 to k
      invariant forall p :: a.off <= p < a.off + i ==> a.buf[p] == target[p - a.off]
      invariant forall p :: 0 <= p < a.buf.Length && !(a.off <= p < a.off + i) ==> a.buf[p] == old(a.buf[p])
    {
      var product := Multiply(u, b.buf[b.off + i]);
      var sum := Xor(a.buf[a.off + i], product);
      a.buf[a.off + i] := sum;
    }
  }

  /** a = u * a */
  method MulBytes(a: Ptr, u: u8, k: nat)
    requires a.Has(k)
    modifies a.buf
    ensures a.buf[..] == Splice(old(a.buf[..]), a.off, Scale(old(a.Bytes(k)), u))
  {
    ghost var target := Scale(a.Bytes(k), u);
    for i := 0 to k
      invariant forall p :: a.off <= p < a.off + i ==> a.buf[p] == target[p - a.off]
      invariant forall p :: 0 <= p < a.buf.Length && !(a.off <= p < a.off + i) ==> a.buf[p] == old(a.buf[p])
    {
      var product := Multiply(u, a.buf[a.off + i]);
      a.buf[a.off + i] := product;
    }
  }

  // Vector registers, byte by byte

  type Register = seq<u8>

  function AndNibble(x: Register): (r: Register)
    ensures |r| == |x|
  {
    seq<u8>(|x|, i requires 0 <= i < |x| => x[i] % 16)
  }

  /**
   Every 64-bit lane shifted right by four bits: a byte gets its own high nibble, and above it
   the low nibble of the next byte of the lane.
   */
  function ShiftLanesRight4(x: Register): (r: Register)
    ensures |r| == |x|
  {
    seq<u8>(|x|, i requires 0 <= i < |x| =>
      if i % 8 != 7 && i + 1 < |x| then x[i] / 16 + 16 * (x[i + 1] % 16) else x[i] / 16)
  }

  /** A byte shuffle with a table of sixteen bytes; indices from 128 on give zero. */
  function Shuffle(table: Register, x: Register): (r: Register)
    requires |table| == 16
    ensures |r| == |x|
  {
    seq<u8>(|x|, i requires 0 <= i < |x| => if x[i] >= 128 then 0 else table[x[i] % 16])
  }

  function XorRegisters(x: Register, y: Register): (r: Register)
    requires |x| == |y|
    ensures |r| == |x|
  {
    seq<u8>(|x|, i requires 0 <= i < |x| => XorByte(x[i], y[i]))
  }

  /** The row of the low-nibble table for u, and that of the high-nibble table. */
  function ShuffleLow(u: u8): (row: Register)
    ensures |row| == 16
  {
    seq<u8>(16, n requires 0 <= n < 16 => ShiftXor(u, n))
  }

  function ShuffleHigh(u: u8): (row: Register)
    ensures |row| == 16
  {
    seq<u8>(16, n requires 0 <= n < 16 => ShiftXor(u, 16 * n))
  }

  /** What the vector loops compute from one register. */
  function NibbleProduct(u: u8, x: Register): (r: Register)
    ensures |r| == |x|
  {
    XorRegisters(Shuffle(ShuffleLow(u), AndNibble(x)),
                 Shuffle(ShuffleHigh(u), AndNibble(ShiftLanesRight4(x))))
  }

  lemma ByteOfNibbles(u: u8, x: u8)
    ensures XorByte(ShiftXor(u, x % 16), ShiftXor(u, 16 * (x / 16))) == ShiftXor(u, x)
  {
    ShiftXorAddRight(u, x % 16, 16 * (x / 16));
    XorDisjoint(x % 16, x / 16, 16);
  }

  lemma NibbleOfShifted(x: Register, i: nat)
    requires i < |x|
    ensures AndNibble(ShiftLanesRight4(x))[i] == x[i] / 16
  {
    if i % 8 != 7 && i + 1 < |x| {
      assert (x[i] / 16 + 16 * (x[i + 1] % 16)) % 16 == x[i] / 16;
    }
  }

  lemma ShuffleAt(table: Register, x: Register, i: nat)
    requires |table| == 16 && i < |x| && x[i] < 16
    ensures Shuffle(table, x)[i] == table[x[i]]
  {
  }

  lemma NibbleProductAt(u: u8, x: Register, i: nat)
    requires i < |x|
    ensures NibbleProduct(u, x)[i] == ShiftXor(u, x[i])
  {
    var lo, hi := AndNibble(x), AndNibble(ShiftLanesRight4(x));
    NibbleOfShifted(x, i);
    ShuffleAt(ShuffleLow(u), lo, i);
    ShuffleAt(ShuffleHigh(u), hi, i);
    ByteOfNibbles(u, x[i]);
  }

  /** The two shuffles multiply every byte of the register by u. */
  lemma NibbleProductIsScale(u: u8, x: Register)
    ensures NibbleProduct(u, x) == Scale(x, u)
  {
    forall i | 0 <= i < |x|
      ensures NibbleProduct(u, x)[i] == Scale(x, u)[i]
    {
      NibbleProductAt(u, x, i);
      MulDefinition(u, x[i]);
    }
  }

  lemma XorIsAddScaled(x: Register, y: Register, u: u8)
    requires |x| == |y|
    ensures XorRegisters(x, NibbleProduct(u, y)) == AddScaled(x, y, u)
  {
    NibbleProductIsScale(u, y);
    forall i | 0 <= i < |x|
      ensures XorRegisters(x, NibbleProduct(u, y))[i] == AddScaled(x, y, u)[i]
    {
      AddDefinition(x[i], Mul(u, y[i]));
    }
  }

  // Vector loops

  method Store(a: Ptr, x: Register)
    requires a.Has(|x|)
    modifies a.buf
    ensures a.buf[..] == Splice(old(a.buf[..]), a.off, x)
  {
    forall j | 0 <= j < |x| {
      a.buf[a.off + j] := x[j];
    }
  }

  /** One register of a ^= u * b. */
  method MulAddRegister(a: Ptr, b: Ptr, u: u8, w: nat)
    requires a.Has(w) && b.Has(w)
    modifies a.buf
    ensures a.buf[..] == Splice(old(a.buf[..]), a.off, AddScaled(old(a.Bytes(w)), old(b.Bytes(w)), u))
  {
    var x, y := a.buf[a.off..a.off + w], b.buf[b.off..b.off + w];
    XorIsAddScaled(x, y, u);
    Store(a, XorRegisters(x, NibbleProduct(u, y)));
  }

  lemma SumOfBytes(a: Ptr, b: Ptr, u: u8, i: nat, n: nat, part: seq<u8>)
    requires a.Plus(i).Has(n) && b.Plus(i).Has(n) && |part| == n
    requires SumAt(a.buf[..], b.buf[..], a.off + i, b.off + i, u, part)
    ensures AddScaled(a.Plus(i).Bytes(n), b.Plus(i).Bytes(n), u) == part
  {
  }

  /** What the next n bytes of the sum are made of, in memory. */
  lemma NextBytes(a: Ptr, b: Ptr, u: u8, i: nat, n: nat, was: seq<u8>, src: seq<u8>, t: seq<u8>)
    requires a.Has(|t|) && b.Has(|t|) && i + n <= |t| && |was| == a.buf.Length && |src| == b.buf.Length
    requires IsSum(t, was, src, a.off, b.off, u)
    requires DoneUpTo(a.buf[..], b.buf[..], was, src, a.off, b.off, t, i)
    ensures AddScaled(a.Plus(i).Bytes(n), b.Plus(i).Bytes(n), u) == t[i..i + n]
  {
    NextPart(a.buf[..], b.buf[..], was, src, a.off, b.off, t, u, i, n);
    SumOfBytes(a, b, u, i, n, t[i..i + n]);
  }

  lemma ProductOfBytes(a: Ptr, u: u8, i: nat, n: nat, part: seq<u8>)
    requires a.Plus(i).Has(n) && |part| == n && ProductAt(a.buf[..], a.off + i, u, part)
    ensures Scale(a.Plus(i).Bytes(n), u) == part
  {
  }

  /** One register of a ^= u * b, from byte i on. */
  method MulAddNextRegister(a: Ptr, b: Ptr, u: u8, i: nat, w: nat,
                            ghost was: seq<u8>, ghost src: seq<u8>, ghost t: seq<u8>)
    requires a.Has(|t|) && b.Has(|t|) && a.ApartFrom(b, |t|) && i + w <= |t|
    requires |was| == a.buf.Length && |src| == b.buf.Length
    requires DoneUpTo(a.buf[..], b.buf[..], was, src, a.off, b.off, t, i)
    requires AddScaled(a.Plus(i).Bytes(w), b.Plus(i).Bytes(w), u) == t[i..i + w]
    modifies a.buf
    ensures DoneUpTo(a.buf[..], b.buf[..], was, src, a.off, b.off, t, i + w)
  {
    ghost var now, rest := a.buf[..], b.buf[..];
    MulAddRegister(a.Plus(i), b.Plus(i), u, w);
    DoneNext(now, rest, was, src, a.off, b.off, t, i, w, a.buf[..]);
  }

  /** The last n bytes of a ^= u * b, from byte i on. */
  method MulAddTail(a: Ptr, b: Ptr, u: u8, i: nat, n: nat,
                    ghost was: seq<u8>, ghost src: seq<u8>, ghost t: seq<u8>)
    requires a.Has(|t|) && b.Has(|t|) && a.ApartFrom(b, |t|) && i + n == |t|
    requires |was| == a.buf.Length && |src| == b.buf.Length
    requires DoneUpTo(a.buf[..], b.buf[..], was, src, a.off, b.off, t, i)
    requires AddScaled(a.Plus(i).Bytes(n), b.Plus(i).Bytes(n), u) == t[i..]
    modifies a.buf
    ensures a.buf[..] == Splice(was, a.off, t)
  {
    ghost var now, rest := a.buf[..], b.buf[..];
    MulAddBytes(a.Plus(i), b.Plus(i), u, n);
    DoneNext(now, rest, was, src, a.off, b.off, t, i, n, a.buf[..]);
    assert t[..|t|] == t;
  }

  /** a ^= u * b, whole registers first and the rest by the scalar loop */
  method MulAddRegisters(isa: Isa, a: Ptr, b: Ptr, u: u8, k: nat)
    requires a.Has(k) && b.Has(k) && a.ApartFrom(b, k)
    modifies a.buf
    ensures a.buf[..] == Splice(old(a.buf[..]), a.off, AddScaled(old(a.Bytes(k)), old(b.Bytes(k)), u))
  {
    SumOfStretches(a.buf[..], b.buf[..], a.off, b.off, u, k);
    MulAddAllParts(isa, a, b, u, k, a.buf[..], b.buf[..], AddScaled(a.Bytes(k), b.Bytes(k), u));
  }

  method MulAddAllParts(isa: Isa, a: Ptr, b: Ptr, u: u8, k: nat,
                        ghost was: seq<u8>, ghost src: seq<u8>, ghost t: seq<u8>)
    requires |t| == k && a.Has(k) && b.Has(k) && a.ApartFrom(b, k)
    requires was == a.buf[..] && src == b.buf[..] && IsSum(t, was, src, a.off, b.off, u)
    modifies a.buf
    ensures a.buf[..] == Splice(was, a.off, t)
  {
    var whole := WholePart(k, isa.Width());
    WholePartIsRegisters(k, isa.Width());
    var i := MulAddWholeRegisters(isa.Width(), a, b, u, whole, was, src, t);
    NextBytes(a, b, u, i, k - i, was, src, t);
    assert t[i..k] == t[i..];
    MulAddTail(a, b, u, i, k % isa.Width(), was, src, t);
  }

  method MulAddRegisterOf(a: Ptr, b: Ptr, u: u8, i: nat, w: nat, ghost was: seq<u8>, ghost src: seq<u8>,
                          ghost t: seq<u8>)
    requires a.Has(|t|) && b.Has(|t|) && a.ApartFrom(b, |t|) && i + w <= |t|
    requires |was| == a.buf.Length && |src| == b.buf.Length && IsSum(t, was, src, a.off, b.off, u)
    requires DoneUpTo(a.buf[..], b.buf[..], was, src, a.off, b.off, t, i)
    modifies a.buf
    ensures DoneUpTo(a.buf[..], b.buf[..], was, src, a.off, b.off, t, i + w)
  {
    NextBytes(a, b, u, i, w, was, src, t);
    MulAddNextRegister(a, b, u, i, w, was, src, t);
  }

  method MulAddWholeRegisters(w: nat, a: Ptr, b: Ptr, u: u8, whole: nat,
                              ghost was: seq<u8>, ghost src: seq<u8>, ghost t: seq<u8>) returns (i: nat)
    requires w > 0 && whole <= |t| && Registers(whole, w)
    requires a.Has(|t|) && b.Has(|t|) && a.ApartFrom(b, |t|)
    requires was == a.buf[..] && src == b.buf[..] && IsSum(t, was, src, a.off, b.off, u)
    modifies a.buf
    ensures i == whole && DoneUpTo(a.buf[..], b.buf[..], was, src, a.off, b.off, t, i)
  {
    i := 0;
    while i < whole
      invariant 0 <= i <= whole && Multiple(i, w)
      invariant DoneUpTo(a.buf[..], b.buf[..], was, src, a.off, b.off, t, i)
    {
      assert RegisterAt(i, whole, w);
      MulAddRegisterOf(a, b, u, i, w, was, src, t);
      i := i + w;
    }
  }

  /** Every part of t is u times that part of x. */
  ghost predicate PartIsProduct(t: seq<u8>, x: seq<u8>, u: u8, i: nat, n: nat)
    requires |t| == |x|
  {
    i + n <= |t| ==> Scale(x[i..i + n], u) == t[i..i + n]
  }

  ghost predicate IsProduct(t: seq<u8>, x: seq<u8>, u: u8)
    requires |t| == |x|
  {
    forall i: nat, n: nat :: PartIsProduct(t, x, u, i, n)
  }

  /** part is u times the stretch of now at off. */
  ghost predicate ProductAt(now: seq<u8>, off: nat, u: u8, part: seq<u8>)
  {
    off + |part| <= |now| && Scale(now[off..off + |part|], u) == part
  }

  lemma NextProduct(was: seq<u8>, off: nat, x: seq<u8>, t: seq<u8>, u: u8, i: nat, n: nat)
    requires |t| == |x| && off + |x| <= |was| && i + n <= |x| && was[off..off + |x|] == x
    requires IsProduct(t, x, u)
    ensures ProductAt(Splice(was, off, t[..i]), off + i, u, t[i..i + n])
  {
    SpliceAt(was, off, t[..i], off + i, n);
    SliceOfSlice(was, off, off + |x|, i, i + n);
    assert PartIsProduct(t, x, u, i, n);
  }

  /** What the next n bytes of the product are made of, in memory. */
  lemma NextProductBytes(a: Ptr, u: u8, i: nat, n: nat, was: seq<u8>, x: seq<u8>, t: seq<u8>)
    requires |t| == |x| && a.Has(|t|) && i + n <= |t| && |was| == a.buf.Length && was[a.off..a.off + |x|] == x
    requires IsProduct(t, x, u) && a.buf[..] == Splice(was, a.off, t[..i])
    ensures Scale(a.Plus(i).Bytes(n), u) == t[i..i + n]
  {
    NextProduct(was, a.off, x, t, u, i, n);
    ProductOfBytes(a, u, i, n, t[i..i + n]);
  }

  /** a = u * a, whole registers first and the rest by the scalar loop */
  method MulRegisters(isa: Isa, a: Ptr, u: u8, k: nat)
    requires a.Has(k)
    modifies a.buf
    ensures a.buf[..] == Splice(old(a.buf[..]), a.off, Scale(old(a.Bytes(k)), u))
  {
    forall i: nat, n: nat
      ensures PartIsProduct(Scale(a.Bytes(k), u), a.Bytes(k), u, i, n)
    {
    }
    MulAllParts(isa, a, u, k, a.buf[..], a.Bytes(k), Scale(a.Bytes(k), u));
  }

  method MulAllParts(isa: Isa, a: Ptr, u: u8, k: nat, ghost was: seq<u8>, ghost x: seq<u8>, ghost t: seq<u8>)
    requires |t| == |x| == k && a.Has(k) && was == a.buf[..] && x == a.Bytes(k) && IsProduct(t, x, u)
    modifies a.buf
    ensures a.buf[..] == Splice(was, a.off, t)
  {
    var whole := WholePart(k, isa.Width());
    WholePartIsRegisters(k, isa.Width());
    var i := MulWholeRegisters(isa.Width(), a, u, whole, was, x, t);
    NextProductBytes(a, u, i, k - i, was, x, t);
    assert t[i..k] == t[i..];
    MulTail(a, u, i, k % isa.Width(), was, t);
  }

  method MulRegisterOf(a: Ptr, u: u8, i: nat, w: nat, ghost was: seq<u8>, ghost x: seq<u8>, ghost t: seq<u8>)
    requires |t| == |x| && a.Has(|t|) && i + w <= |t| && |was| == a.buf.Length && was[a.off..a.off + |x|] == x
    requires IsProduct(t, x, u) && a.buf[..] == Splice(was, a.off, t[..i])
    modifies a.buf
    ensures a.buf[..] == Splice(was, a.off, t[..i + w])
  {
    NextProductBytes(a, u, i, w, was, x, t);
    MulNextRegister(a, u, i, w, was, t);
  }

  method MulWholeRegisters(w: nat, a: Ptr, u: u8, whole: nat, ghost was: seq<u8>, ghost x: seq<u8>, ghost t: seq<u8>)
    returns (i: nat)
    requires w > 0 && whole <= |t| == |x| && Registers(whole, w)
    requires a.Has(|t|) && was == a.buf[..] && x == a.Bytes(|t|) && IsProduct(t, x, u)
    modifies a.buf
    ensures i == whole && a.buf[..] == Splice(was, a.off, t[..i])
  {
    i := 0;
    while i < whole
      invariant 0 <= i <= whole && Multiple(i, w)
      invariant a.buf[..] == Splice(was, a.off, t[..i])
    {
      assert RegisterAt(i, whole, w);
      MulRegisterOf(a, u, i, w, was, x, t);
      i := i + w;
    }
  }

  /** One register of a = u * a, from byte i on. */
  method MulNextRegister(a: Ptr, u: u8, i: nat, w: nat, ghost was: seq<u8>, ghost t: seq<u8>)
    requires a.Has(|t|) && i + w <= |t| && |was| == a.buf.Length
    requires a.buf[..] == Splice(was, a.off, t[..i])
    requires Scale(a.Plus(i).Bytes(w), u) == t[i..i + w]
    modifies a.buf
    ensures a.buf[..] == Splice(was, a.off, t[..i + w])
  {
    SpliceMore(was, a.off, t, i, w);
    MulRegister(a.Plus(i), u, w);
  }

  method MulRegister(a: Ptr, u: u8, w: nat)
    requires a.Has(w)
    modifies a.buf
    ensures a.buf[..] == Splice(old(a.buf[..]), a.off, Scale(old(a.Bytes(w)), u))
  {
    var x := a.buf[a.off..a.off + w];
    NibbleProductIsScale(u, x);
    Store(a, NibbleProduct(u, x));
  }

  /** The last n bytes of a = u * a, from byte i on. */
  method MulTail(a: Ptr, u: u8, i: nat, n: nat, ghost was: seq<u8>, ghost t: seq<u8>)
    requires a.Has(|t|) && i + n == |t| && |was| == a.buf.Length
    requires a.buf[..] == Splice(was, a.off, t[..i])
    requires Scale(a.Plus(i).Bytes(n), u) == t[i..i + n]
    modifies a.buf
    ensures a.buf[..] == Splice(was, a.off, t)
  {
    SpliceMore(was, a.off, t, i, n);
    assert t[..|t|] == t;
    MulBytes(a.Plus(i), u, n);
  }

  // The entry points

  method OblAxpy(isa: Isa, a: Ptr, b: Ptr, u: u8, k: nat)
    requires a.Has(k) && b.Has(k) && a.ApartFrom(b, k)
    modifies a.buf
    ensures a.buf[..] == Splice(old(a.buf[..]), a.off, AddScaled(old(a.Bytes(k)), old(b.Bytes(k)), u))
  {
    if u == 1 {
      XorBytes(a, b, k);
    } else if isa == Scalar {
      MulAddBytes(a, b, u, k);
    } else {
      MulAddRegisters(isa, a, b, u, k);
    }
  }

  method OblScal(isa: Isa, a: Ptr, u: u8, k: nat)
    requires a.Has(k)
    modifies a.buf
    ensures a.buf[..] == Splice(old(a.buf[..]), a.off, Scale(old(a.Bytes(k)), u))
  {
    if isa == Scalar {
      MulBytes(a, u, k);
    } else {
      MulRegisters(isa, a, u, k);
    }
  }

  /** The multiply-and-add of the erasure code, with its two shortcuts. */
  method Axpy(isa: Isa, a: Ptr, b: Ptr, u: u8, k: nat)
    requires a.Has(k) && b.Has(k) && a.ApartFrom(b, k)
    modifies a.buf
    ensures a.buf[..] == Splice(old(a.buf[..]), a.off, AddScaled(old(a.Bytes(k)), old(b.Bytes(k)), u))
  {
    if u == 0 {
      AddNothing(a.Bytes(k), b.Bytes(k));
      return;
    }
    if u == 1 {
      XorBytes(a, b, k);
    } else {
      OblAxpy(isa, a, b, u, k);
    }
  }

  lemma AddNothing(x: Row, y: Row)
    requires |x| == |y|
    ensures AddScaled(x, y, 0) == x
  {
    forall i | 0 <= i < |x|
      ensures AddScaled(x, y, 0)[i] == x[i]
    {
      MulZero(y[i]);
      AddZero(x[i]);
    }
  }

  /** Scaling, which leaves the bytes alone when u is 0 as well as when it is 1. */
  method Scal(isa: Isa, a: Ptr, u: u8, k: nat)
    requires a.Has(k)
    modifies a.buf
    ensures a.buf[..] == if u == 0 then old(a.buf[..])
                         else Splice(old(a.buf[..]), a.off, Scale(old(a.Bytes(k)), u))
  {
    if u < 2 {
      ScaleByOne(a.Bytes(k));
      return;
    }
    OblScal(isa, a, u, k);
  }

  lemma ScaleByOne(x: Row)
    ensures Scale(x, 1) == x
  {
    forall i | 0 <= i < |x|
      ensures Scale(x, 1)[i] == x[i]
    {
      MulOne(x[i]);
    }
  }

  /** Leaving x alone is scaling it by u exactly when u is 1 or x is zero already. */
  lemma ShortcutAgrees(x: Row, u: u8)
    ensures Scale(x, u) == x <==> u == 1 || x == Zeros(|x|)
  {
    if u == 1 {
      ScaleByOne(x);
    } else if x == Zeros(|x|) {
      MulZero(u);
      assert Scale(x, u) == x;
    } else {
      var i :| 0 <= i < |x| && x[i] != 0;
      if Scale(x, u) == x {
        assert Mul(u, x[i]) == x[i];
        FixedFactor(u, x[i]);
      }
    }
  }

  /** One byte of value 1 times 0: the shortcut leaves it. */
  lemma ZeroIsSkipped()
    ensures Scale([1], 0) != [1]
  {
    ShortcutAgrees([1], 0);
    assert Zeros(1)[0] == 0;
  }

  lemma FixedFactor(u: u8, x: u8)
    requires x != 0 && Mul(u, x) == x
    ensures u == 1
  {
    MulComm(u, x);
    MulOne(x);
    MulCancel(x, u, 1);
  }
}
