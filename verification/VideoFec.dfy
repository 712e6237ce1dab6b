/** The error correction of one block of video packets: how much there is and what it computes. */
module VideoFec {
  import opened Bits
  import opened Memory
  import opened Vectors
  import opened ErasureCode
  import opened WireFormat
  import opened PacketNumbers
  import opened VideoHeader
  import opened VideoFrame

  const MAX_SHARDS := 255

  /** The properties of the payloader. */
  datatype Settings = Settings(payloadSize: nat, addPadding: bool, fecPercentage: nat, minRequired: nat) {
    /** The element divides by payloadSize - 16, and its property ends at 10240. */
    predicate Ok()
    {
      MAX_RTP_HEADER_SIZE < payloadSize <= 10240
    }

    /** The number of payload bytes in a packet. */
    function Width(): (w: nat)
      requires Ok()
      ensures 0 < w < LENGTHS
    {
      payloadSize - MAX_RTP_HEADER_SIZE
    }
  }

  datatype Split = Split(blockSize: nat, dataShards: nat, parityShards: nat, percentage: nat) {
    function Total(): nat
    {
      dataShards + parityShards
    }
  }

  /** The percentage is raised when it gives fewer than the required number of parity packets. */
  predicate Raised(c: Settings, n: nat)
  {
    (n * c.fecPercentage + 99) / 100 < c.minRequired
  }

  function DetermineSplit(c: Settings, n: nat): (r: Split)
    requires n > 0
  {
    var blockSize := c.payloadSize + HEADER_SIZE - MAX_RTP_HEADER_SIZE;
    if Raised(c, n) then Split(blockSize, n, c.minRequired, 100 * c.minRequired / n)
    else Split(blockSize, n, (n * c.fecPercentage + 99) / 100, c.fecPercentage)
  }

  /**
   There is as much parity as the percentage asks for, rounded up, and never less than required; the
   percentage that is advertised is raised only when that many were too few.
   */
  lemma SplitIs(c: Settings, n: nat, parity: nat, percentage: nat)
    requires n > 0 && parity >= c.minRequired && 100 * parity >= n * c.fecPercentage
    requires parity > c.minRequired ==> 100 * (parity - 1) < n * c.fecPercentage
    requires percentage == if 100 * (c.minRequired - 1) >= n * c.fecPercentage then 100 * parity / n
                           else c.fecPercentage
    ensures DetermineSplit(c, n) == Split(c.payloadSize + 16, n, parity, percentage)
  {
    RoundedUpOnce(n * c.fecPercentage, c.minRequired, parity);
  }

  lemma RoundedUpOnce(x: nat, least: nat, parity: nat)
    requires parity >= least && 100 * parity >= x && (parity > least ==> 100 * (parity - 1) < x)
    ensures (x + 99) / 100 < least <==> 100 * (least - 1) >= x
    ensures parity == if (x + 99) / 100 < least then least else (x + 99) / 100
  {
  }

  /** What the receiver makes of the number of data packets and the percentage in a header. */
  function ParityFor(n: nat, percentage: nat): nat
  {
    (n * percentage + 99) / 100
  }

  /**
   The receiver computes the number of parity packets that were sent, unless the percentage was
   raised and what its division drops is a whole hundred or more.
   */
  lemma ParityIsRecomputed(c: Settings, n: nat)
    requires n > 0
    ensures var r := DetermineSplit(c, n);
            ParityFor(n, r.percentage) == r.parityShards <==> !Raised(c, n) || 100 * c.minRequired % n < 100
  {
    if Raised(c, n) {
      var dropped := 100 * c.minRequired % n;
      assert n * (100 * c.minRequired / n) == 100 * c.minRequired - dropped;
      RoundedUp(c.minRequired, dropped);
    }
  }

  lemma RoundedUp(m: nat, dropped: nat)
    requires dropped <= 100 * m
    ensures (100 * m - dropped + 99) / 100 == m <==> dropped < 100
  {
  }

  /** So up to a hundred data packets the receiver is always right. */
  lemma SmallBlocksAreRecomputed(c: Settings, n: nat)
    requires 0 < n <= 100
    ensures ParityFor(n, DetermineSplit(c, n).percentage) == DetermineSplit(c, n).parityShards
  {
    ParityIsRecomputed(c, n);
  }

  /** A hundred and one data packets that need 102 parity packets: the receiver expects 101. */
  lemma LargeBlockIsNot()
    ensures var c := Settings(1392, true, 1, 102);
            var r := DetermineSplit(c, 101);
            r.parityShards == 102 && ParityFor(101, r.percentage) != 102
  {
  }

  /** The percentage fits its eight bits in the header. */
  lemma PercentageFits(c: Settings, n: nat)
    requires n > 0 && c.fecPercentage < 0x100
    ensures DetermineSplit(c, n).percentage < 0x100 <==> !Raised(c, n) || 100 * c.minRequired < 0x100 * n
  {
    var q := 100 * c.minRequired / n;
    var r := 100 * c.minRequired % n;
    assert 100 * c.minRequired == q * n + r;
    if q >= 0x100 {
      ProductGrows(0x100, q - 0x100, n);
    } else {
      ProductGrows(q + 1, 0xFF - q, n);
      ProductGrows(q, 1, n);
    }
  }

  /** One data packet that needs three parity packets: 300 percent. */
  lemma ThreeForOneDoesNotFit()
    ensures var c := Settings(1392, true, 20, 3);
            DetermineSplit(c, 1).percentage == 300 && !(DetermineSplit(c, 1).percentage < 0x100)
  {
    PercentageFits(Settings(1392, true, 20, 3), 1);
  }

  /** More data packets never give a smaller block. */
  lemma TotalGrows(c: Settings, m: nat, n: nat)
    requires 0 < m <= n
    ensures DetermineSplit(c, m).Total() <= DetermineSplit(c, n).Total()
  {
    ProductGrows(m, n - m, c.fecPercentage);
  }

  lemma ParityPositive(c: Settings, n: nat)
    requires n > 0 && c.fecPercentage > 0
    ensures DetermineSplit(c, n).parityShards > 0
  {
    ProductGrows(1, n - 1, c.fecPercentage);
  }

  // Blocks of a frame

  const MULTI_BLOCK := 90
  const LAST_OF_THREE := 0x80

  function PacketsPerBlock(n: nat): nat
  {
    (n + 2) / 3
  }

  /** Where the blocks of n packets begin and end. */
  function Cuts(n: nat): (cuts: seq<nat>)
    ensures |cuts| == if n > MULTI_BLOCK then 4 else 2
  {
    if n > MULTI_BLOCK then [0, PacketsPerBlock(n), 2 * PacketsPerBlock(n), n] else [0, n]
  }

  /** The end of block k as the loop over three blocks computes it. */
  function BlockEnd(n: nat, k: nat): nat
  {
    var end := (k + 1) * PacketsPerBlock(n);
    if end <= n then end else n
  }

  /** The three blocks are the packets in order. */
  lemma CutsAreBlocks(n: nat, k: nat)
    requires n > MULTI_BLOCK && k < 3
    ensures Cuts(n)[k] == k * PacketsPerBlock(n) && Cuts(n)[k + 1] == BlockEnd(n, k)
  {
  }

  /** Blocks follow each other without gaps, none is empty, and none is larger than one before it. */
  lemma CutsPartition(n: nat, k: nat)
    requires n > 0 && k < |Cuts(n)| - 1
    ensures Cuts(n)[0] == 0 && Cuts(n)[|Cuts(n)| - 1] == n && Cuts(n)[k] < Cuts(n)[k + 1] <= n
    ensures forall j :: 0 <= j < k ==> Cuts(n)[k + 1] - Cuts(n)[k] <= Cuts(n)[j + 1] - Cuts(n)[j]
  {
  }

  /** Three blocks are all non-empty for any three or more packets but four. */
  lemma ThreeBlocksNonEmpty(n: nat)
    ensures (forall k: nat | k < 3 :: k * PacketsPerBlock(n) < BlockEnd(n, k)) <==> n == 3 || n >= 5
  {
    var p := PacketsPerBlock(n);
    if n == 3 || n >= 5 {
      assert 2 * p < n;
    } else {
      assert !(2 * p < BlockEnd(n, 2));
    }
  }

  // What a block computes

  /** Packets that fill their shards, except that the last one may be shorter. */
  ghost predicate Even(packets: seq<Bytes>, bs: nat)
  {
    && (forall i :: 0 <= i < |packets| ==> HEADER_SIZE <= |packets[i]| <= bs)
    && (forall i :: 0 <= i < |packets| - 1 ==> |packets[i]| == bs)
  }

  ghost function Padded(packet: Bytes, bs: nat): (row: Row)
    requires |packet| <= bs
    ensures |row| == bs && packet <= row
  {
    packet + Zeros(bs - |packet|)
  }

  ghost function DataRows(packets: seq<Bytes>, bs: nat): (rows: seq<Row>)
    requires forall i :: 0 <= i < |packets| ==> |packets[i]| <= bs
    ensures |rows| == |packets| && Uniform(rows, bs)
    ensures forall i :: 0 <= i < |rows| ==> rows[i] == Padded(packets[i], bs)
  {
    seq(|packets|, i requires 0 <= i < |packets| => Padded(packets[i], bs))
  }

  ghost predicate Fits(c: Settings, n: nat)
    requires n > 0
  {
    DetermineSplit(c, n).Total() <= MAX_SHARDS
  }

  /** The shards of a block: its packets, filled up with zeroes, and their parity. */
  ghost function Shards(c: Settings, packets: seq<Bytes>): (rows: seq<Row>)
    requires c.Ok() && |packets| > 0 && Even(packets, DetermineSplit(c, |packets|).blockSize) && Fits(c, |packets|)
    ensures |rows| == DetermineSplit(c, |packets|).Total()
    ensures Uniform(rows, DetermineSplit(c, |packets|).blockSize)
  {
    var r := DetermineSplit(c, |packets|);
    var data := DataRows(packets, r.blockSize);
    data + Encoded(CauchyParity(r.dataShards, r.parityShards), data, r.blockSize)
  }

  /** Packet i of a block before its header is completed. */
  ghost function Source(packets: seq<Bytes>, rows: seq<Row>, i: nat): Bytes
    requires i < |rows|
  {
    if i < |packets| then packets[i] else rows[i]
  }

  ghost function PlaceIn(c: Settings, n: nat, i: nat, block: nat, lastBlock: nat): Place
    requires n > 0
  {
    Place(i, n, DetermineSplit(c, n).percentage, block, lastBlock)
  }

  ghost function CodedPacket(c: Settings, number: nat, frame: nat, packets: seq<Bytes>, block: nat, lastBlock: nat,
                             i: nat):
    (packet: Bytes)
    requires c.Ok() && |packets| > 0 && Even(packets, DetermineSplit(c, |packets|).blockSize) && Fits(c, |packets|)
    requires i < DetermineSplit(c, |packets|).Total()
  {
    WithFecInfo(Source(packets, Shards(c, packets), i), number + i, frame, PlaceIn(c, |packets|, i, block, lastBlock))
  }

  lemma CodedPacketNumber(c: Settings, number: nat, frame: nat, packets: seq<Bytes>, block: nat, lastBlock: nat, i: nat)
    requires c.Ok() && |packets| > 0 && Even(packets, DetermineSplit(c, |packets|).blockSize) && Fits(c, |packets|)
    requires i < DetermineSplit(c, |packets|).Total()
    ensures |CodedPacket(c, number, frame, packets, block, lastBlock, i)| >= HEADER_SIZE
    ensures Number(CodedPacket(c, number, frame, packets, block, lastBlock, i)) == (number + i) % NUMBERS
  {
    NumberWithFecInfo(Source(packets, Shards(c, packets), i), number + i, frame,
                      PlaceIn(c, |packets|, i, block, lastBlock));
  }

  /** A block with error correction, or the packets as they are when there would be too many. */
  ghost function Block(c: Settings, number: nat, frame: nat, packets: seq<Bytes>, block: nat, lastBlock: nat):
    (out: seq<Bytes>)
    requires c.Ok() && |packets| > 0 && Even(packets, DetermineSplit(c, |packets|).blockSize)
    ensures |out| == if Fits(c, |packets|) then DetermineSplit(c, |packets|).Total() else |packets|
  {
    if Fits(c, |packets|) then
      seq(DetermineSplit(c, |packets|).Total(),
          i requires 0 <= i < DetermineSplit(c, |packets|).Total() =>
            CodedPacket(c, number, frame, packets, block, lastBlock, i))
    else packets
  }

  /**
   The receiver reads shard number, number of data shards and percentage from the header of every
   packet of a block exactly when the percentage was not raised, or not beyond eight bits.
   */
  lemma HeaderIsRead(c: Settings, number: nat, frame: nat, packets: seq<Bytes>, block: nat, lastBlock: nat, i: nat)
    requires c.Ok() && |packets| > 0 && Even(packets, DetermineSplit(c, |packets|).blockSize) && Fits(c, |packets|)
    requires i < DetermineSplit(c, |packets|).Total() && c.fecPercentage <= 100
    ensures |CodedPacket(c, number, frame, packets, block, lastBlock, i)| >= HEADER_SIZE
    ensures FieldsAre(ReadLittle32(CodedPacket(c, number, frame, packets, block, lastBlock, i), 28),
                      i, |packets|, DetermineSplit(c, |packets|).percentage)
            <==> !Raised(c, |packets|) || 100 * c.minRequired < 0x100 * |packets|
  {
    var percentage := DetermineSplit(c, |packets|).percentage;
    InfoIsRead(CodedPacket(c, number, frame, packets, block, lastBlock, i), FecInfo(i, |packets|, percentage));
    FecInfoFields(i, |packets|, percentage);
    PercentageFits(c, |packets|);
  }

  /** Three required packets for a block of one: the percentage of 300 cannot be read from any of its packets. */
  lemma ThreeForOneIsNotRead(number: nat, frame: nat, packet: Bytes, i: nat)
    requires HEADER_SIZE <= |packet| <= 1408 && i < 4
    ensures var c := Settings(1392, true, 20, 3);
            && DetermineSplit(c, 1) == Split(1408, 1, 3, 300)
            && |CodedPacket(c, number, frame, [packet], 0, 0, i)| >= HEADER_SIZE
            && !FieldsAre(ReadLittle32(CodedPacket(c, number, frame, [packet], 0, 0, i), 28), i, 1, 300)
  {
    HeaderIsRead(Settings(1392, true, 20, 3), number, frame, [packet], 0, 0, i);
  }

  /** The default of two required packets always fits. */
  lemma DefaultIsRead(c: Settings, n: nat)
    requires n > 0 && c.minRequired <= 2
    ensures !Raised(c, n) || 100 * c.minRequired < 0x100 * n
  {
  }

  // What the receiver gets out of a block

  /** The payload columns of packets that fill their shards with zeroes. */
  ghost function Tails(packets: seq<Bytes>, bs: nat): (rows: seq<Row>)
    requires bs >= HEADER_SIZE && forall i :: 0 <= i < |packets| ==> |packets[i]| <= bs
    ensures |rows| == |packets| && Uniform(rows, bs - HEADER_SIZE)
    ensures forall i :: 0 <= i < |rows| ==> rows[i] == Padded(packets[i], bs)[HEADER_SIZE..]
  {
    Columns(DataRows(packets, bs), HEADER_SIZE)
  }

  lemma TailOfCoded(packet: Bytes, number: nat, frame: nat, p: Place, bs: nat)
    requires HEADER_SIZE <= |packet| <= bs
    ensures Padded(WithFecInfo(packet, number, frame, p), bs)[HEADER_SIZE..] == Padded(packet, bs)[HEADER_SIZE..]
  {
    var r := WithFecInfo(packet, number, frame, p);
    var z := Zeros(bs - |packet|);
    assert (r + z)[HEADER_SIZE..] == r[HEADER_SIZE..] + z;
    assert (packet + z)[HEADER_SIZE..] == packet[HEADER_SIZE..] + z;
  }

  lemma BlockSizes(c: Settings, number: nat, frame: nat, packets: seq<Bytes>, block: nat, lastBlock: nat)
    requires c.Ok() && |packets| > 0 && Even(packets, DetermineSplit(c, |packets|).blockSize)
    ensures var out := Block(c, number, frame, packets, block, lastBlock);
            forall i :: 0 <= i < |out| ==> HEADER_SIZE <= |out[i]| <= DetermineSplit(c, |packets|).blockSize
  {
    var out := Block(c, number, frame, packets, block, lastBlock);
    if Fits(c, |packets|) {
      forall i | 0 <= i < |out|
        ensures HEADER_SIZE <= |out[i]| <= DetermineSplit(c, |packets|).blockSize
      {
        assert out[i] == CodedPacket(c, number, frame, packets, block, lastBlock, i);
      }
    }
  }

  /** Although headers are rewritten after encoding, the payload columns of a block are a codeword. */
  lemma BlockIsCodeword(c: Settings, number: nat, frame: nat, packets: seq<Bytes>, block: nat, lastBlock: nat)
    requires c.Ok() && |packets| > 0 && Even(packets, DetermineSplit(c, |packets|).blockSize) && Fits(c, |packets|)
    ensures var r := DetermineSplit(c, |packets|);
            var out := Block(c, number, frame, packets, block, lastBlock);
            var xs := Tails(packets, r.blockSize);
            && (forall i :: 0 <= i < |out| ==> |out[i]| <= r.blockSize)
            && Tails(out, r.blockSize)
               == xs + Encoded(CauchyParity(r.dataShards, r.parityShards), xs, r.blockSize - HEADER_SIZE)
  {
    var r := DetermineSplit(c, |packets|);
    var out := Block(c, number, frame, packets, block, lastBlock);
    BlockSizes(c, number, frame, packets, block, lastBlock);
    forall i | 0 <= i < |out|
      ensures Padded(out[i], r.blockSize)[HEADER_SIZE..] == TailIn(packets, r, i)
    {
      assert out[i] == CodedPacket(c, number, frame, packets, block, lastBlock, i);
      TailAt(c, number, frame, packets, block, lastBlock, i);
    }
    TailsAreCodeword(packets, r, out);
  }

  lemma TailsAreCodeword(packets: seq<Bytes>, r: Split, out: seq<Bytes>)
    requires r.dataShards == |packets| && HEADER_SIZE <= r.blockSize && |out| == r.Total() <= MAX_SHARDS
    requires forall i :: 0 <= i < |packets| ==> |packets[i]| <= r.blockSize
    requires forall i :: 0 <= i < |out| ==> |out[i]| <= r.blockSize
    requires forall i :: 0 <= i < |out| ==> Padded(out[i], r.blockSize)[HEADER_SIZE..] == TailIn(packets, r, i)
    ensures var xs := Tails(packets, r.blockSize);
            Tails(out, r.blockSize)
              == xs + Encoded(CauchyParity(r.dataShards, r.parityShards), xs, r.blockSize - HEADER_SIZE)
  {
  }

  /** The payload columns of packet i of a block. */
  lemma TailAt(c: Settings, number: nat, frame: nat, packets: seq<Bytes>, block: nat, lastBlock: nat, i: nat)
    requires c.Ok() && |packets| > 0 && Even(packets, DetermineSplit(c, |packets|).blockSize) && Fits(c, |packets|)
    requires i < DetermineSplit(c, |packets|).Total()
    ensures var r := DetermineSplit(c, |packets|);
            var packet := CodedPacket(c, number, frame, packets, block, lastBlock, i);
            && |packet| <= r.blockSize
            && Padded(packet, r.blockSize)[HEADER_SIZE..] == TailIn(packets, r, i)
  {
    SourceTail(c, packets, i);
    TailOfCoded(Source(packets, Shards(c, packets), i), number + i, frame, PlaceIn(c, |packets|, i, block, lastBlock),
                DetermineSplit(c, |packets|).blockSize);
  }

  lemma SourceTail(c: Settings, packets: seq<Bytes>, i: nat)
    requires c.Ok() && |packets| > 0 && Even(packets, DetermineSplit(c, |packets|).blockSize) && Fits(c, |packets|)
    requires i < DetermineSplit(c, |packets|).Total()
    ensures var r := DetermineSplit(c, |packets|);
            var source := Source(packets, Shards(c, packets), i);
            && HEADER_SIZE <= |source| <= r.blockSize
            && Padded(source, r.blockSize)[HEADER_SIZE..] == TailIn(packets, r, i)
  {
    var r := DetermineSplit(c, |packets|);
    if i >= r.dataShards {
      var row := Shards(c, packets)[i];
      ParityTail(CauchyParity(r.dataShards, r.parityShards), i - r.dataShards, packets, r.blockSize);
      assert Padded(row, r.blockSize) == row;
    }
  }

  ghost function TailIn(packets: seq<Bytes>, r: Split, i: nat): (row: Row)
    requires r.dataShards == |packets| && HEADER_SIZE <= r.blockSize && i < r.Total() <= MAX_SHARDS
    requires forall i :: 0 <= i < |packets| ==> |packets[i]| <= r.blockSize
  {
    var xs := Tails(packets, r.blockSize);
    if i < r.dataShards then xs[i]
    else Encoded(CauchyParity(r.dataShards, r.parityShards), xs, r.blockSize - HEADER_SIZE)[i - r.dataShards]
  }

  lemma ParityTail(parity: seq<Row>, j: nat, packets: seq<Bytes>, bs: nat)
    requires ParityShape(parity, |packets|) && j < |parity| && bs >= HEADER_SIZE
    requires forall i :: 0 <= i < |packets| ==> |packets[i]| <= bs
    ensures Encoded(parity, DataRows(packets, bs), bs)[j][HEADER_SIZE..]
         == Encoded(parity, Tails(packets, bs), bs - HEADER_SIZE)[j]
  {
    CombineColumns(parity[j], DataRows(packets, bs), bs, HEADER_SIZE);
  }

  /** What was received of a block: the payload columns of the unmarked packets, anything else. */
  ghost predicate Received(received: seq<Row>, out: seq<Bytes>, marks: seq<u8>, bs: nat)
    requires |out| <= |marks| && bs >= HEADER_SIZE
  {
    && |received| == |out| && Uniform(received, bs - HEADER_SIZE)
    && forall i :: 0 <= i < |out| && marks[i] == 0 ==>
         |out[i]| <= bs && received[i] == Padded(out[i], bs)[HEADER_SIZE..]
  }

  /** The packets of a block that can be lost: any, as many as there is parity, or none without parity. */
  ghost predicate Bearable(c: Settings, n: nat, marks: seq<u8>)
    requires n > 0
  {
    var r := DetermineSplit(c, n);
    if Fits(c, n) then r.Total() <= |marks| && |Indices(marks, 0, r.Total(), true)| <= r.parityShards
    else n <= |marks| && forall i :: 0 <= i < n ==> marks[i] == 0
  }

  /** The payloads that the receiver has after decoding, or at once when there is no parity. */
  ghost function Recovered(c: Settings, n: nat, marks: seq<u8>, received: seq<Row>): (rows: seq<Row>)
    requires c.Ok() && n > 0 && Bearable(c, n, marks)
    requires |received| == (if Fits(c, n) then DetermineSplit(c, n).Total() else n) && Uniform(received, c.Width())
    ensures |rows| == n
  {
    var r := DetermineSplit(c, n);
    if Fits(c, n) then
      LossesAllowed(marks, n, r.parityShards);
      Repaired(CauchyParity(n, r.parityShards), marks, received, n, c.Width())[..n]
    else received
  }

  /** Dropping any packets of a block, no more than its parity, leaves the receiver all payloads. */
  lemma BlockRecovers(c: Settings, number: nat, frame: nat, packets: seq<Bytes>, block: nat, lastBlock: nat,
                      marks: seq<u8>, received: seq<Row>)
    requires c.Ok() && |packets| > 0 && Even(packets, DetermineSplit(c, |packets|).blockSize)
    requires Bearable(c, |packets|, marks)
    requires Received(received, Block(c, number, frame, packets, block, lastBlock), marks,
                      DetermineSplit(c, |packets|).blockSize)
    ensures Recovered(c, |packets|, marks, received) == Tails(packets, DetermineSplit(c, |packets|).blockSize)
  {
    var r := DetermineSplit(c, |packets|);
    var xs := Tails(packets, r.blockSize);
    if Fits(c, |packets|) {
      LossesAllowed(marks, |packets|, r.parityShards);
      ReceivedAgrees(c, number, frame, packets, block, lastBlock, marks, received);
      CauchyCorrectsAllLosses(|packets|, r.parityShards);
      RepairRestoresData(CauchyParity(|packets|, r.parityShards), marks, received, xs, c.Width());
    }
  }

  lemma ReceivedAgrees(c: Settings, number: nat, frame: nat, packets: seq<Bytes>, block: nat, lastBlock: nat,
                       marks: seq<u8>, received: seq<Row>)
    requires c.Ok() && |packets| > 0 && Even(packets, DetermineSplit(c, |packets|).blockSize) && Fits(c, |packets|)
    requires DetermineSplit(c, |packets|).Total() <= |marks|
    requires Received(received, Block(c, number, frame, packets, block, lastBlock), marks,
                      DetermineSplit(c, |packets|).blockSize)
    ensures var r := DetermineSplit(c, |packets|);
            Agrees(CauchyParity(r.dataShards, r.parityShards), marks, received, Tails(packets, r.blockSize), c.Width())
  {
    var r := DetermineSplit(c, |packets|);
    forall i | 0 <= i < r.Total() && marks[i] == 0
      ensures received[i] == TailIn(packets, r, i)
    {
      TailAt(c, number, frame, packets, block, lastBlock, i);
    }
    TailsAgree(packets, r, marks, received);
  }

  lemma TailsAgree(packets: seq<Bytes>, r: Split, marks: seq<u8>, received: seq<Row>)
    requires r.dataShards == |packets| && HEADER_SIZE <= r.blockSize && |received| == r.Total() <= MAX_SHARDS
    requires r.Total() <= |marks| && forall i :: 0 <= i < |packets| ==> |packets[i]| <= r.blockSize
    requires forall i :: 0 <= i < r.Total() && marks[i] == 0 ==> received[i] == TailIn(packets, r, i)
    ensures Agrees(CauchyParity(r.dataShards, r.parityShards), marks, received, Tails(packets, r.blockSize),
                   r.blockSize - HEADER_SIZE)
  {
  }
}
