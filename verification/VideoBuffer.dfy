/** The memory in which a block of video packets is encoded. */
module VideoBuffer {
  import opened Bits
  import opened Vectors
  import opened Memory
  import opened Oblas
  import opened Shards
  import opened ErasureCode
  import opened ReedSolomon
  import opened RoundTrip
  import opened WireFormat
  import opened VideoFrame
  import VideoFec
  import FlatRows

  /** Appending the buffers of a list. */
  method Unfold(list: seq<Bytes>) returns (bytes: Bytes)
    ensures bytes == Join(list)
  {
    bytes := [];
    for idx := 0 to |list|
      invariant bytes == Join(list[..idx])
    {
      bytes := bytes + list[idx];
      assert list[..idx + 1][..idx] == list[..idx];
    }
    assert list[..|list|] == list;
  }

  ghost function ZeroRows(n: nat, bs: nat): (rows: seq<Row>)
    ensures |rows| == n && Uniform(rows, bs)
  {
    seq(n, _ => Zeros(bs))
  }

  lemma {:induction false} FlatOfFull(packets: seq<Bytes>, bs: nat, rows: seq<Row>, n: nat)
    requires VideoFec.Even(packets, bs) && n < |packets| && rows == VideoFec.DataRows(packets, bs)
    ensures FlatRows.Flat(rows, 0, n) == Join(packets[..n])
  {
    if n > 0 {
      FlatOfFull(packets, bs, rows, n - 1);
      assert packets[..n][..n - 1] == packets[..n - 1];
      assert rows[n - 1] == packets[n - 1];
    }
  }

  /** The packets one after the other, filled up with zeroes to whole shards, are the data rows. */
  lemma FlatOfData(packets: seq<Bytes>, bs: nat, rows: seq<Row>, fill: nat)
    requires |packets| > 0 && VideoFec.Even(packets, bs) && rows == VideoFec.DataRows(packets, bs)
    requires fill == bs - |packets[|packets| - 1]|
    ensures FlatRows.Flat(rows, 0, |rows|) == Join(packets) + Zeros(fill)
  {
    var last := |packets| - 1;
    FlatOfFull(packets, bs, rows, last);
    assert rows[last] == packets[last] + Zeros(fill);
  }

  /** The padding that the code adds, depending on the size of the packets modulo the block size. */
  lemma PaddingIs(packets: seq<Bytes>, bs: nat)
    requires |packets| > 0 && VideoFec.Even(packets, bs) && bs > 0
    ensures var size := |Join(packets)|;
            var fill := bs - |packets[|packets| - 1]|;
            |packets| * bs - size == fill && (size % bs != 0 <==> fill != 0)
  {
    var n := |packets| - 1;
    var rows := VideoFec.DataRows(packets, bs);
    FlatOfFull(packets, bs, rows, n);
    FlatRows.FlatLength(rows, bs, 0, n);
    ProductGrows(n, 1, bs);
    var last := |packets[n]|;
    assert |Join(packets)| == n * bs + last;
    if last < bs {
      QuotientUnique(|Join(packets)|, bs, n, last);
    } else {
      QuotientUnique(|Join(packets)|, bs, n + 1, 0);
    }
  }

  lemma {:induction false} FlatOfZeroes(rows: seq<Row>, n: nat, bs: nat, k: nat)
    requires k <= n && Uniform(rows, bs)
    ensures FlatRows.Flat(rows + ZeroRows(n, bs), 0, |rows| + k) == FlatRows.Flat(rows, 0, |rows|) + Zeros(k * bs)
  {
    var all := rows + ZeroRows(n, bs);
    if k == 0 {
      FlatOfPrefix(rows, ZeroRows(n, bs), |rows|);
    } else {
      FlatOfZeroes(rows, n, bs, k - 1);
      ProductGrows(k - 1, 1, bs);
      assert all[|rows| + k - 1] == Zeros(bs);
      assert Zeros((k - 1) * bs) + Zeros(bs) == Zeros(k * bs);
    }
  }

  lemma {:induction false} FlatOfPrefix(rows: seq<Row>, more: seq<Row>, n: nat)
    requires n <= |rows|
    ensures FlatRows.Flat(rows + more, 0, n) == FlatRows.Flat(rows, 0, n)
  {
    if n > 0 {
      FlatOfPrefix(rows, more, n - 1);
    }
  }

  /** The shards of a buffer: stretches of bs bytes one after the other. */
  function Pointers(buf: array<u8>, n: nat, bs: nat): (ptrs: seq<Ptr>)
    ensures |ptrs| == n && forall i :: 0 <= i < n ==> ptrs[i] == Ptr(buf, i * bs)
  {
    seq(n, i requires 0 <= i < n => Ptr(buf, i * bs))
  }

  lemma PointersAreLaid(buf: array<u8>, n: nat, bs: nat, ptrs: seq<Ptr>)
    requires ptrs == Pointers(buf, n, bs) && n * bs <= buf.Length
    ensures Laid(ptrs, bs)
  {
    forall i | 0 <= i < n
      ensures ptrs[i].Has(bs)
    {
      FlatRows.ProductStep(i, n, bs);
    }
    forall i, j | 0 <= i < j < n
      ensures ptrs[i].ApartFrom(ptrs[j], bs)
    {
      FlatRows.ProductStep(i, j, bs);
    }
  }

  lemma PointersSeeRows(buf: array<u8>, rows: seq<Row>, bs: nat, ptrs: seq<Ptr>)
    requires ptrs == Pointers(buf, |rows|, bs) && FlatRows.Holds(buf[..], rows, bs) && Laid(ptrs, bs)
    ensures View(ptrs, bs) == rows
  {
    forall i | 0 <= i < |rows|
      ensures View(ptrs, bs)[i] == rows[i]
    {
      FlatRows.RowInBuffer(buf[..], rows, bs, i);
    }
  }

  // One buffer for the data shards, filled up with zeroes, and for the parity shards.
  method FecBuffer(packets: seq<Bytes>, bs: nat, parity: nat) returns (buf: array<u8>)
    requires |packets| > 0 && bs > 0 && VideoFec.Even(packets, bs)
    ensures fresh(buf) && (|packets| + parity) * bs <= buf.Length
    ensures FlatRows.Holds(buf[..], VideoFec.DataRows(packets, bs) + ZeroRows(parity, bs), bs)
  {
    var bytes := Unfold(packets);
    PaddingIs(packets, bs);
    ghost var fill := bs - |packets[|packets| - 1]|;
    var size := |bytes|;
    if size % bs != 0 {
      bytes := bytes + Zeros(|packets| * bs - size);
    }
    assert bytes == Join(packets) + Zeros(fill);
    bytes := bytes + Zeros(parity * bs);
    BufferHolds(packets, bs, parity, fill, bytes);
    buf := new u8[|bytes|](i requires 0 <= i < |bytes| => bytes[i]);
    assert buf[..] == bytes;
  }

  lemma BufferHolds(packets: seq<Bytes>, bs: nat, parity: nat, fill: nat, bytes: Bytes)
    requires |packets| > 0 && VideoFec.Even(packets, bs) && fill == bs - |packets[|packets| - 1]|
    requires bytes == Join(packets) + Zeros(fill) + Zeros(parity * bs)
    ensures |bytes| == (|packets| + parity) * bs
    ensures FlatRows.Holds(bytes, VideoFec.DataRows(packets, bs) + ZeroRows(parity, bs), bs)
  {
    var rows := VideoFec.DataRows(packets, bs);
    FlatOfData(packets, bs, rows, fill);
    FlatOfZeroes(rows, parity, bs, parity);
    FlatRows.FlatLength(rows + ZeroRows(parity, bs), bs, 0, |packets| + parity);
  }

  method BlockBuffer(packets: seq<Bytes>, bs: nat, parity: nat) returns (ptrs: seq<Ptr>)
    requires |packets| > 0 && bs > 0 && VideoFec.Even(packets, bs)
    ensures Laid(ptrs, bs) && fresh(Buffers(ptrs))
    ensures View(ptrs, bs) == VideoFec.DataRows(packets, bs) + ZeroRows(parity, bs)
  {
    var buf := FecBuffer(packets, bs, parity);
    ptrs := Pointers(buf, |packets| + parity, bs);
    PointersAreLaid(buf, |packets| + parity, bs, ptrs);
    PointersSeeRows(buf, VideoFec.DataRows(packets, bs) + ZeroRows(parity, bs), bs, ptrs);
  }

  /** The shards of a block, encoded in a buffer of their own. */
  method EncodeBlock(isa: Isa, packets: seq<Bytes>, bs: nat, parity: nat) returns (ptrs: seq<Ptr>)
    requires |packets| > 0 && bs > 0 && VideoFec.Even(packets, bs)
    requires parity > 0 && |packets| + parity <= VideoFec.MAX_SHARDS
    ensures Laid(ptrs, bs)
    ensures var data := VideoFec.DataRows(packets, bs);
            View(ptrs, bs) == data + Encoded(CauchyParity(|packets|, parity), data, bs)
  {
    ghost var data := VideoFec.DataRows(packets, bs);
    ptrs := BlockBuffer(packets, bs, parity);
    ghost var v := View(ptrs, bs);
    DataFirst(data, ZeroRows(parity, bs), v);
    var rs := Codec.New(isa, |packets|, parity);
    var status := rs.Encode(ptrs, bs);
    assert View(ptrs, bs) == v[..|packets|] + Encoded(CauchyParity(|packets|, parity), v[..|packets|], bs);
  }

  lemma DataFirst(data: seq<Row>, rest: seq<Row>, v: seq<Row>)
    requires v == data + rest
    ensures v[..|data|] == data && v[|data| + |rest|..] == []
  {
  }

  // Decoding with a codec made for the block.
  method Repair(isa: Isa, n: nat, parity: nat, marks: seq<u8>, shards: seq<Ptr>, w: nat) returns (status: int)
    requires 0 < n && 0 < parity && n + parity == |shards| <= VideoFec.MAX_SHARDS && |shards| <= |marks|
    requires EnoughSurvive(marks, n, parity) && !AllOfSquare(marks, n, parity) && Laid(shards, w)
    modifies Buffers(shards)
    ensures status == 0
    ensures View(shards, w) == Repaired(CauchyParity(n, parity), marks, old(View(shards, w)), n, w)
  {
    var rs := Codec.New(isa, n, parity);
    RoomForEveryLoss(rs, marks, |shards|);
    status := rs.Decode(marks, shards, w);
  }

  /**
   The receiver of a block: whatever packets are lost, no more than its parity, decoding the payload
   columns of the others in place gives the payloads of all data packets, unless all of the data is
   lost from a block with as much parity as data.
   */
  method DecodeBlock(isa: Isa, c: VideoFec.Settings, n: nat, marks: seq<u8>, shards: seq<Ptr>,
                     ghost number: nat, ghost frame: nat, ghost packets: seq<Bytes>, ghost block: nat,
                     ghost lastBlock: nat)
    returns (status: int)
    requires c.Ok() && c.fecPercentage > 0 && n == |packets| > 0 && VideoFec.Fits(c, n)
    requires VideoFec.Even(packets, VideoFec.DetermineSplit(c, n).blockSize) && VideoFec.Bearable(c, n, marks)
    requires !AllOfSquare(marks, n, VideoFec.DetermineSplit(c, n).parityShards)
    requires |shards| == VideoFec.DetermineSplit(c, n).Total() && Laid(shards, c.Width())
    requires VideoFec.Received(View(shards, c.Width()), VideoFec.Block(c, number, frame, packets, block, lastBlock),
                               marks, VideoFec.DetermineSplit(c, n).blockSize)
    modifies Buffers(shards)
    ensures status == 0
    ensures View(shards, c.Width())[..n] == VideoFec.Tails(packets, VideoFec.DetermineSplit(c, n).blockSize)
  {
    ghost var view := View(shards, c.Width());
    AfterRepair(c, number, frame, packets, block, lastBlock, marks, view);
    status := Repair(isa, n, VideoFec.DetermineSplit(c, n).parityShards, marks, shards, c.Width());
  }

  lemma AfterRepair(c: VideoFec.Settings, number: nat, frame: nat, packets: seq<Bytes>, block: nat, lastBlock: nat,
                    marks: seq<u8>, view: seq<Row>)
    requires c.Ok() && c.fecPercentage > 0 && |packets| > 0 && VideoFec.Fits(c, |packets|)
    requires VideoFec.Even(packets, VideoFec.DetermineSplit(c, |packets|).blockSize)
    requires VideoFec.Bearable(c, |packets|, marks)
    requires VideoFec.Received(view, VideoFec.Block(c, number, frame, packets, block, lastBlock), marks,
                               VideoFec.DetermineSplit(c, |packets|).blockSize)
    ensures var n, parity := |packets|, VideoFec.DetermineSplit(c, |packets|).parityShards;
            && parity > 0 && EnoughSurvive(marks, n, parity) && |view| == n + parity && Uniform(view, c.Width())
            && Repaired(CauchyParity(n, parity), marks, view, n, c.Width())[..n]
               == VideoFec.Tails(packets, VideoFec.DetermineSplit(c, n).blockSize)
  {
    EnoughOfBlock(c, |packets|, marks);
    VideoFec.BlockRecovers(c, number, frame, packets, block, lastBlock, marks, view);
  }

  lemma EnoughOfBlock(c: VideoFec.Settings, n: nat, marks: seq<u8>)
    requires c.Ok() && c.fecPercentage > 0 && n > 0 && VideoFec.Fits(c, n) && VideoFec.Bearable(c, n, marks)
    ensures var parity := VideoFec.DetermineSplit(c, n).parityShards; parity > 0 && EnoughSurvive(marks, n, parity)
  {
    VideoFec.ParityPositive(c, n);
    LossesAllowed(marks, n, VideoFec.DetermineSplit(c, n).parityShards);
  }
}
