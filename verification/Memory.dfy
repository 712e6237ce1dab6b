/** Pointers into byte buffers. */
module Memory {
  import opened Bits

  /** A pointer: a buffer and a position in it. */
  datatype Ptr = Ptr(buf: array<u8>, off: nat) {
    /** len bytes can be reached. */
    ghost predicate Has(len: nat)
    {
      off + len <= buf.Length
    }

    ghost function Bytes(len: nat): (s: seq<u8>)
      requires Has(len)
      reads buf
      ensures |s| == len
    {
      buf[..][off..off + len]
    }

    ghost predicate ApartFrom(other: Ptr, len: nat)
    {
      buf != other.buf || off + len <= other.off || other.off + len <= off
    }

    function Plus(n: nat): Ptr
    {
      Ptr(buf, off + n)
    }
  }

  /** s with the bytes from position off on replaced by t. */
  ghost function Splice(s: seq<u8>, off: nat, t: seq<u8>): (r: seq<u8>)
    requires off + |t| <= |s|
    ensures |r| == |s|
  {
    s[..off] + t + s[off + |t|..]
  }

  lemma SpliceAt(s: seq<u8>, off: nat, t: seq<u8>, lo: nat, len: nat)
    requires off + |t| <= |s| && lo + len <= |s|
    ensures lo == off && len == |t| ==> Splice(s, off, t)[lo..lo + len] == t
    ensures lo + len <= off || off + |t| <= lo ==> Splice(s, off, t)[lo..lo + len] == s[lo..lo + len]
  {
  }

  lemma SliceOfSlice(s: seq<u8>, lo: nat, hi: nat, i: nat, j: nat)
    requires lo <= hi <= |s| && i <= j <= hi - lo
    ensures s[lo..hi][i..j] == s[lo + i..lo + j]
  {
    assert s[lo..hi] == s[..hi][lo..];
    forall k | 0 <= k < j - i
      ensures s[lo..hi][i..j][k] == s[lo + i..lo + j][k]
    {
    }
  }

  /** Splicing in the next n bytes of t after the first i. */
  lemma SpliceMore(s: seq<u8>, off: nat, t: seq<u8>, i: nat, n: nat)
    requires off + |t| <= |s| && i + n <= |t|
    ensures Splice(Splice(s, off, t[..i]), off + i, t[i..i + n]) == Splice(s, off, t[..i + n])
  {
  }

  /** The part of k bytes that whole registers of w bytes cover. */
  function WholePart(k: nat, w: nat): nat
    requires w > 0
  {
    k - k % w
  }

  ghost predicate Multiple(i: nat, w: nat)
    requires w > 0
  {
    i == 0 || (i >= w && Multiple(i - w, w))
  }

  lemma {:induction false} MultipleModulo(i: nat, w: nat)
    requires w > 0 && Multiple(i, w)
    ensures i % w == 0
  {
    if i > 0 {
      MultipleModulo(i - w, w);
      ModuloStep(i - w, w);
    }
  }

  lemma ModuloStep(i: nat, w: nat)
    requires w > 0
    ensures (i + w) % w == i % w
  {
    var q := i / w;
    assert (q + 1) * w == q * w + w;
    assert i + w == (q + 1) * w + i % w;
    QuotientUnique(i + w, w, q + 1, i % w);
  }

  lemma QuotientUnique(n: nat, w: nat, q: nat, r: nat)
    requires w > 0 && n == q * w + r && r < w
    ensures n / w == q && n % w == r
  {
    var p, s := n / w, n % w;
    assert n == p * w + s;
    if p < q {
      ProductGrows(p + 1, q - p - 1, w);
    } else if p > q {
      ProductGrows(q + 1, p - q - 1, w);
    }
  }

  lemma ProductGrows(a: nat, b: nat, w: nat)
    ensures (a + b) * w == a * w + b * w >= a * w
  {
  }

  /** Below whole there is room for one more register behind i. */
  ghost predicate RegisterAt(i: nat, whole: nat, w: nat)
    requires w > 0
  {
    Multiple(i, w) && i < whole ==> i + w <= whole && Multiple(i + w, w)
  }

  /** whole consists of whole registers. */
  ghost predicate Registers(whole: nat, w: nat)
    requires w > 0
  {
    forall i: nat :: RegisterAt(i, whole, w)
  }

  lemma WholePartIsRegisters(k: nat, w: nat)
    requires w > 0
    ensures 0 <= WholePart(k, w) <= k && Registers(WholePart(k, w), w)
  {
    forall i: nat
      ensures RegisterAt(i, WholePart(k, w), w)
    {
      if Multiple(i, w) && i < WholePart(k, w) {
        RegisterFits(i, k, w);
      }
    }
  }

  /** Below the whole part there is room for one more register. */
  lemma RegisterFits(i: nat, k: nat, w: nat)
    requires w > 0 && Multiple(i, w) && i < WholePart(k, w)
    ensures i + w <= WholePart(k, w) <= k && Multiple(i + w, w)
  {
    MultipleModulo(i, w);
    var q, p := i / w, k / w;
    assert i == q * w && k == p * w + k % w;
    ProductGrows(q, 1, w);
    if q >= p {
      ProductGrows(p, q - p, w);
    } else {
      ProductGrows(q + 1, p - q - 1, w);
    }
  }
}
