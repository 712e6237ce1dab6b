/**
 The header bytes that error correction leaves alone: although the others are rewritten behind the
 encoder, a receiver gets type, stream index and flags of a lost packet back, as it gets its payload.
 */
module VideoColumns {
  import opened Bits
  import opened Vectors
  import opened ErasureCode
  import opened WireFormat
  import opened VideoHeader
  import opened VideoFec

  /** Error correction writes neither the type nor the bytes 4 to 19, nor the flags at 24 and the byte behind them. */
  predicate Kept(t: nat)
  {
    t == 1 || 4 <= t < 20 || t == 24 || t == 25
  }

  /** Byte t of every row, as rows of one byte. */
  ghost function Column(rows: seq<Bytes>, t: nat): (column: seq<Row>)
    requires forall i :: 0 <= i < |rows| ==> t < |rows[i]|
    ensures |column| == |rows| && Uniform(column, 1) && forall i :: 0 <= i < |rows| ==> column[i] == [rows[i][t]]
  {
    seq(|rows|, i requires 0 <= i < |rows| => [rows[i][t]])
  }

  lemma {:induction false} DotOfColumn(row: Row, rows: seq<Row>, column: seq<Row>, n: nat, t: nat)
    requires n <= |row| && n <= |rows| == |column|
    requires forall j :: 0 <= j < n ==> t < |rows[j]| && column[j] == [rows[j][t]]
    ensures Dot(row, column, n, 0) == Dot(row, rows, n, t)
  {
    if n > 0 {
      DotOfColumn(row, rows, column, n - 1, t);
    }
  }

  lemma KeptInHeader(packet: Bytes, number: nat, frame: nat, place: Place, t: nat)
    requires |packet| >= 32 && Kept(t)
    ensures WithFecInfo(packet, number, frame, place)[t] == packet[t]
  {
  }

  lemma HeaderIsFilled(packet: Bytes, bs: nat, t: nat)
    requires t < |packet| <= bs
    ensures Padded(packet, bs)[t] == packet[t]
  {
  }

  /** Byte t of packet i of a block with parity packets: that of the data packet, or the parity of them all. */
  ghost function ByteIn(packets: seq<Bytes>, parity: nat, i: nat, t: nat): (row: Row)
    requires |packets| > 0 && i < |packets| + parity <= 255
    requires forall k :: 0 <= k < |packets| ==> t < |packets[k]|
  {
    if i < |packets| then Column(packets, t)[i]
    else Combine(CauchyRow(|packets|, parity, i - |packets|), Column(packets, t), 1)
  }

  /** Byte t of the parity packets is the parity of byte t of the data packets. */
  lemma HeaderByteIsCoded(c: Settings, number: nat, frame: nat, packets: seq<Bytes>, block: nat, lastBlock: nat,
                          i: nat, t: nat)
    requires c.Ok() && |packets| > 0 && Even(packets, DetermineSplit(c, |packets|).blockSize) && Fits(c, |packets|)
    requires i < DetermineSplit(c, |packets|).Total() && Kept(t)
    requires forall k :: 0 <= k < |packets| ==> |packets[k]| >= 32
    ensures var p := CodedPacket(c, number, frame, packets, block, lastBlock, i);
            |p| >= 32 && [p[t]] == ByteIn(packets, DetermineSplit(c, |packets|).parityShards, i, t)
  {
    SourceByte(c, packets, i, t);
    KeptInHeader(Source(packets, Shards(c, packets), i), number + i, frame, PlaceIn(c, |packets|, i, block, lastBlock),
                 t);
  }

  lemma SourceByte(c: Settings, packets: seq<Bytes>, i: nat, t: nat)
    requires c.Ok() && |packets| > 0 && Even(packets, DetermineSplit(c, |packets|).blockSize) && Fits(c, |packets|)
    requires i < DetermineSplit(c, |packets|).Total() && Kept(t)
    requires forall k :: 0 <= k < |packets| ==> |packets[k]| >= 32
    ensures var source := Source(packets, Shards(c, packets), i);
            |source| >= 32 && [source[t]] == ByteIn(packets, DetermineSplit(c, |packets|).parityShards, i, t)
  {
    var m, r := |packets|, DetermineSplit(c, |packets|);
    if i < m {
      assert Column(packets, t)[i] == [packets[i][t]];
    } else {
      ParityShard(c, packets, i);
      ParityByte(CauchyParity(m, r.parityShards), i - m, packets, r.blockSize, t);
    }
  }

  lemma ParityShard(c: Settings, packets: seq<Bytes>, i: nat)
    requires c.Ok() && |packets| > 0 && Even(packets, DetermineSplit(c, |packets|).blockSize) && Fits(c, |packets|)
    requires |packets| <= i < DetermineSplit(c, |packets|).Total()
    ensures var m, r := |packets|, DetermineSplit(c, |packets|);
            Shards(c, packets)[i]
            == Encoded(CauchyParity(m, r.parityShards), DataRows(packets, r.blockSize), r.blockSize)[i - m]
  {
  }

  lemma ParityByte(parity: seq<Row>, j: nat, packets: seq<Bytes>, bs: nat, t: nat)
    requires |packets| > 0 && ParityShape(parity, |packets|) && j < |parity| && Kept(t)
    requires forall k :: 0 <= k < |packets| ==> 32 <= |packets[k]| <= bs
    ensures t < bs && [Encoded(parity, DataRows(packets, bs), bs)[j][t]] == Combine(parity[j], Column(packets, t), 1)
  {
    var rows := DataRows(packets, bs);
    forall k | 0 <= k < |packets|
      ensures t < |rows[k]| && Column(packets, t)[k] == [rows[k][t]]
    {
      HeaderIsFilled(packets[k], bs, t);
    }
    DotOfColumn(parity[j], rows, Column(packets, t), |packets|, t);
  }

  /** What was received of byte t: that of the unmarked packets, anything else. */
  ghost predicate ReceivedByte(received: seq<Row>, out: seq<Bytes>, marks: seq<u8>, t: nat)
    requires |out| <= |marks|
  {
    && |received| == |out| && Uniform(received, 1)
    && forall i :: 0 <= i < |out| && marks[i] == 0 ==> |out[i]| > t && received[i] == [out[i][t]]
  }

  /** Dropping any packets of a block, no more than its parity, leaves the receiver this byte of every packet. */
  lemma HeaderByteRecovers(c: Settings, number: nat, frame: nat, packets: seq<Bytes>, block: nat, lastBlock: nat,
                           marks: seq<u8>, received: seq<Row>, t: nat)
    requires c.Ok() && |packets| > 0 && Even(packets, DetermineSplit(c, |packets|).blockSize) && Fits(c, |packets|)
    requires Kept(t) && Bearable(c, |packets|, marks)
    requires ReceivedByte(received, Block(c, number, frame, packets, block, lastBlock), marks, t)
    ensures var m, ps := |packets|, DetermineSplit(c, |packets|).parityShards;
            && EnoughSurvive(marks, m, ps)
            && Repaired(CauchyParity(m, ps), marks, received, m, 1)[..m] == Column(packets, t)
  {
    var m, ps := |packets|, DetermineSplit(c, |packets|).parityShards;
    LossesAllowed(marks, m, ps);
    forall i | 0 <= i < m + ps && marks[i] == 0
      ensures received[i] == ByteIn(packets, ps, i, t)
    {
      HeaderByteIsCoded(c, number, frame, packets, block, lastBlock, i, t);
    }
    BytesRecover(packets, ps, marks, received, t);
  }

  lemma BytesRecover(packets: seq<Bytes>, parity: nat, marks: seq<u8>, received: seq<Row>, t: nat)
    requires |packets| > 0 && |received| == |packets| + parity <= 255 && |received| <= |marks|
    requires Uniform(received, 1) && forall k :: 0 <= k < |packets| ==> t < |packets[k]|
    requires forall i :: 0 <= i < |received| && marks[i] == 0 ==> received[i] == ByteIn(packets, parity, i, t)
    requires EnoughSurvive(marks, |packets|, parity)
    ensures Repaired(CauchyParity(|packets|, parity), marks, received, |packets|, 1)[..|packets|] == Column(packets, t)
  {
    var m, xs := |packets|, Column(packets, t);
    assert Agrees(CauchyParity(m, parity), marks, received, xs, 1);
    CauchyCorrectsAllLosses(m, parity);
    RepairRestoresData(CauchyParity(m, parity), marks, received, xs, 1);
  }
}
