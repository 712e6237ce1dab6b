/** The video payloader: its loops over packets, blocks and frames, and the state between frames. */
module VideoPayloader {
  import opened Vectors
  import opened Memory
  import opened Oblas
  import opened Shards
  import opened WireFormat
  import opened PacketNumbers
  import opened VideoHeader
  import opened VideoFrame
  import opened VideoFec
  import opened VideoStream
  import VideoBuffer

  method GenerateRtpPackets(c: Settings, number: nat, frame: nat, inbuf: Bytes) returns (packets: seq<Bytes>)
    requires c.Ok() && |inbuf| > 0
    ensures packets == DataPackets(c, number, frame, inbuf)
  {
    var payloadSize := c.payloadSize - MAX_RTP_HEADER_SIZE;
    var total := Packets(|inbuf|, payloadSize);
    ghost var all := DataPackets(c, number, frame, inbuf);
    packets := [];
    for nr := 0 to total
      invariant packets == all[..nr]
    {
      var packet := RtpPacket(c, number, frame, inbuf, nr, total);
      assert packet == all[nr];
      packets := packets + [packet];
    }
    assert all[..total] == all;
  }

  method RtpPacket(c: Settings, number: nat, frame: nat, inbuf: Bytes, nr: nat, total: nat) returns (packet: Bytes)
    requires c.Ok() && |inbuf| > 0 && nr < total == Packets(|inbuf|, c.Width())
    ensures packet == DataPacket(c, number, frame, inbuf, nr)
  {
    var payloadSize := c.payloadSize - MAX_RTP_HEADER_SIZE;
    var begin := nr * payloadSize;
    PayloadStarts(inbuf, payloadSize, nr);
    var payload := CopyRegion(inbuf, payloadSize, begin, c.addPadding);
    packet := RtpVideoHeader(number + nr, frame, nr, total) + payload;
  }

  method CopyRegion(inbuf: Bytes, payloadSize: nat, begin: nat, addPadding: bool) returns (payload: Bytes)
    requires begin <= |inbuf|
    ensures payload == Payload(inbuf, payloadSize, begin, addPadding)
  {
    var remaining := |inbuf| - begin;
    payload := inbuf[begin..begin + if remaining < payloadSize then remaining else payloadSize];
    if remaining < payloadSize && addPadding {
      payload := payload + Zeros(payloadSize - remaining);
    }
  }

  /** Packet i of all is the source with the fields of error correction for place i. */
  ghost predicate Coded(all: seq<Bytes>, i: nat, source: Bytes, number: nat, frame: nat, p: Place)
  {
    i < |all| && |source| >= HEADER_SIZE && all[i] == WithFecInfo(source, number + i, frame, p.(idx := i))
  }

  // Data packets get the fields in place.
  method UpdateData(packets: seq<Bytes>, number: nat, frame: nat, p: Place, ghost all: seq<Bytes>)
    returns (out: seq<Bytes>)
    requires forall i :: 0 <= i < |packets| ==> Coded(all, i, packets[i], number, frame, p)
    requires |packets| <= |all|
    ensures out == all[..|packets|]
  {
    out := [];
    for i := 0 to |packets|
      invariant out == all[..i]
    {
      assert Coded(all, i, packets[i], number, frame, p);
      out := out + [WithFecInfo(packets[i], number + i, frame, p.(idx := i))];
    }
  }

  // Parity packets are copied out of their shards.
  method AppendParity(packets: seq<Bytes>, ptrs: seq<Ptr>, bs: nat, number: nat, frame: nat, p: Place,
                      ghost all: seq<Bytes>)
    returns (out: seq<Bytes>)
    requires Laid(ptrs, bs) && |packets| <= |all| == |ptrs| && packets == all[..|packets|]
    requires forall i :: |packets| <= i < |ptrs| ==> Coded(all, i, View(ptrs, bs)[i], number, frame, p)
    ensures out == all
  {
    out := packets;
    for i := |packets| to |ptrs|
      invariant out == all[..i]
    {
      var shard := ptrs[i].buf[ptrs[i].off..ptrs[i].off + bs];
      assert shard == View(ptrs, bs)[i];
      assert Coded(all, i, View(ptrs, bs)[i], number, frame, p);
      out := out + [WithFecInfo(shard, number + i, frame, p.(idx := i))];
    }
  }

  lemma BlockIsCoded(c: Settings, number: nat, frame: nat, packets: seq<Bytes>, block: nat, lastBlock: nat, i: nat)
    requires c.Ok() && |packets| > 0 && Even(packets, DetermineSplit(c, |packets|).blockSize) && Fits(c, |packets|)
    requires i < DetermineSplit(c, |packets|).Total()
    ensures Coded(Block(c, number, frame, packets, block, lastBlock), i,
                  Source(packets, VideoFec.Shards(c, packets), i), number, frame,
                  Place(0, |packets|, DetermineSplit(c, |packets|).percentage, block, lastBlock))
  {
    assert Block(c, number, frame, packets, block, lastBlock)[i]
        == CodedPacket(c, number, frame, packets, block, lastBlock, i);
  }

  // The packets of a block with error correction, followed by the parity packets.
  method GenerateFecPackets(isa: Isa, c: Settings, number: nat, frame: nat, packets: seq<Bytes>, block: nat,
                            lastBlock: nat)
    returns (out: seq<Bytes>)
    requires c.Ok() && c.fecPercentage > 0 && |packets| > 0
    requires Even(packets, DetermineSplit(c, |packets|).blockSize)
    ensures out == Block(c, number, frame, packets, block, lastBlock)
  {
    var r := DetermineSplit(c, |packets|);
    if r.Total() > MAX_SHARDS {
      return packets;
    }
    ParityPositive(c, |packets|);
    var ptrs := VideoBuffer.EncodeBlock(isa, packets, r.blockSize, r.parityShards);
    ghost var all := Block(c, number, frame, packets, block, lastBlock);
    var p := Place(0, r.dataShards, r.percentage, block, lastBlock);
    forall i | 0 <= i < |all|
      ensures Coded(all, i, if i < |packets| then packets[i] else View(ptrs, r.blockSize)[i], number, frame, p)
    {
      BlockIsCoded(c, number, frame, packets, block, lastBlock, i);
    }
    var data := UpdateData(packets, number, frame, p, all);
    out := AppendParity(data, ptrs, r.blockSize, number, frame, p, all);
  }

  class Payloader {
    const isa: Isa
    var c: Settings
    var curSeqNumber: nat
    var frameNum: nat
    ghost var inputs: seq<Input>  // the frames so far
    ghost var emitted: seq<Bytes>  // and their packets

    ghost predicate Valid()
      reads this
    {
      && AllOk(inputs) && frameNum == |inputs| % WORDS
      && Run(inputs) == Stream(curSeqNumber, emitted)
    }

    constructor (isa: Isa)
      ensures Valid() && inputs == [] && c == Settings(1392, true, 20, 2)
    {
      this.isa := isa;
      c := Settings(1392, true, 20, 2);
      curSeqNumber, frameNum, inputs, emitted := 0, 0, [], [];
    }

    method SetProperties(c: Settings)
      requires Valid()
      modifies `c
      ensures Valid() && this.c == c
    {
      this.c := c;
    }

    // Three blocks, each with error correction of its own.
    method GenerateFecMultiBlocks(packets: seq<Bytes>, ghost sender: (nat, nat) -> seq<Bytes>) returns (out: seq<Bytes>)
      requires FrameInput(c, packets) && |packets| > MULTI_BLOCK && c.fecPercentage > 0 && curSeqNumber < WORDS
      requires IsSender(sender, c, frameNum, packets)
      modifies `curSeqNumber
      ensures out == Chain(sender, old(curSeqNumber), |Cuts(|packets|)| - 1)
      ensures curSeqNumber == (old(curSeqNumber) + |out|) % WORDS
    {
      ghost var first := curSeqNumber;
      out := [];
      for k := 0 to 3
        invariant c == old(c) && frameNum == old(frameNum)
        invariant out == Chain(sender, first, k)
        invariant curSeqNumber == (first + |out|) % WORDS
      {
        out := AddBlock(packets, k, sender, first, out);
      }
    }

    method AddBlock(packets: seq<Bytes>, k: nat, ghost sender: (nat, nat) -> seq<Bytes>, ghost first: nat,
                    before: seq<Bytes>)
      returns (out: seq<Bytes>)
      requires FrameInput(c, packets) && |packets| > MULTI_BLOCK && c.fecPercentage > 0 && k < 3
      requires IsSender(sender, c, frameNum, packets)
      requires before == Chain(sender, first, k) && curSeqNumber == (first + |before|) % WORDS
      modifies `curSeqNumber
      ensures out == Chain(sender, first, k + 1) && curSeqNumber == (first + |out|) % WORDS
    {
      var block := NextBlock(packets, k, sender);
      ChainNext(sender, first, k, before, curSeqNumber, block);
      out := before + block;
      curSeqNumber := (curSeqNumber + |block|) % WORDS;
    }

    method NextBlock(packets: seq<Bytes>, k: nat, ghost sender: (nat, nat) -> seq<Bytes>) returns (block: seq<Bytes>)
      requires FrameInput(c, packets) && |packets| > MULTI_BLOCK && c.fecPercentage > 0 && k < 3
      requires IsSender(sender, c, frameNum, packets)
      ensures block == sender(curSeqNumber, k)
    {
      var perBlock := PacketsPerBlock(|packets|);
      var start := k * perBlock;
      var end := if (k + 1) * perBlock <= |packets| then (k + 1) * perBlock else |packets|;
      CutsAreBlocks(|packets|, k);
      CutsPartition(|packets|, k);
      BlockInputIsEven(c, packets, k);
      assert packets[start..end] == BlockInput(packets, k);
      block := GenerateFecPackets(isa, c, curSeqNumber, frameNum, packets[start..end], k, LAST_OF_THREE);
      assert SenderGives(sender, c, frameNum, packets, curSeqNumber, k);
    }

    // One block or three; the counter moves behind them.
    method WithCorrection(packets: seq<Bytes>, ghost sender: (nat, nat) -> seq<Bytes>) returns (out: seq<Bytes>)
      requires FrameInput(c, packets) && c.fecPercentage > 0 && curSeqNumber < WORDS
      requires IsSender(sender, c, frameNum, packets)
      modifies `curSeqNumber
      ensures out == Chain(sender, old(curSeqNumber), |Cuts(|packets|)| - 1)
      ensures curSeqNumber == (old(curSeqNumber) + |out|) % WORDS
    {
      if |packets| > MULTI_BLOCK {
        out := GenerateFecMultiBlocks(packets, sender);
      } else {
        out := OneBlock(packets, sender);
        curSeqNumber := (curSeqNumber + |out|) % WORDS;
      }
    }

    method OneBlock(packets: seq<Bytes>, ghost sender: (nat, nat) -> seq<Bytes>) returns (out: seq<Bytes>)
      requires FrameInput(c, packets) && c.fecPercentage > 0 && |packets| <= MULTI_BLOCK && curSeqNumber < WORDS
      requires IsSender(sender, c, frameNum, packets)
      ensures out == Chain(sender, curSeqNumber, 1)
    {
      BlockInputIsEven(c, packets, 0);
      assert BlockInput(packets, 0) == packets;
      out := GenerateFecPackets(isa, c, curSeqNumber, frameNum, packets, 0, 0);
      assert SenderGives(sender, c, frameNum, packets, curSeqNumber, 0);
      ChainFirst(sender, curSeqNumber);
    }

    // The packets of one frame.
    method SplitIntoRtp(inbuf: Bytes, isKey: bool) returns (packets: seq<Bytes>)
      requires Valid() && c.Ok()
      modifies `curSeqNumber, `frameNum, `inputs, `emitted
      ensures Valid() && inputs == old(inputs) + [Input(c, inbuf, isKey)] && emitted == old(emitted) + packets
      ensures packets == old(FramePackets(c, curSeqNumber, frameNum, inbuf, isKey))
    {
      ghost var x := Input(c, inbuf, isKey);
      ghost var all := FramePackets(c, curSeqNumber, frameNum, inbuf, isKey);
      RunNext(inputs, x, curSeqNumber, emitted, all);
      packets := SplitFrame(inbuf, isKey);
      NextFrame(x, packets);
    }

    method NextFrame(ghost x: Input, ghost packets: seq<Bytes>)
      requires AllOk(inputs) && x.c.Ok() && frameNum == |inputs| % WORDS
      requires Run(inputs + [x]) == Stream(curSeqNumber, emitted + packets)
      modifies `frameNum, `inputs, `emitted
      ensures Valid() && inputs == old(inputs) + [x] && emitted == old(emitted) + packets
    {
      inputs, emitted := inputs + [x], emitted + packets;
      frameNum := (frameNum + 1) % WORDS;
    }

    method SplitFrame(inbuf: Bytes, isKey: bool) returns (packets: seq<Bytes>)
      requires c.Ok() && curSeqNumber < WORDS
      modifies `curSeqNumber
      ensures packets == old(FramePackets(c, curSeqNumber, frameNum, inbuf, isKey))
      ensures curSeqNumber == if c.fecPercentage > 0 then (old(curSeqNumber) + |packets|) % WORDS else old(curSeqNumber)
    {
      var data := Packetise(inbuf, isKey);
      packets := Correct(data);
      FramePacketsAre(c, old(curSeqNumber), frameNum, inbuf, isKey, data, packets);
    }

    method Correct(packets: seq<Bytes>) returns (out: seq<Bytes>)
      requires FrameInput(c, packets) && curSeqNumber < WORDS
      modifies `curSeqNumber
      ensures out == old(Corrected(c, curSeqNumber, frameNum, packets))
      ensures curSeqNumber == if c.fecPercentage > 0 then (old(curSeqNumber) + |out|) % WORDS else old(curSeqNumber)
    {
      if c.fecPercentage > 0 {
        out := WithCorrection(packets, Sender(c, frameNum, packets));
      } else {
        out := packets;
      }
    }

    method Packetise(inbuf: Bytes, isKey: bool) returns (packets: seq<Bytes>)
      requires c.Ok()
      ensures packets == FrameData(c, curSeqNumber, frameNum, inbuf, isKey)
    {
      var payload := WithShortHeader(inbuf, c.payloadSize - MAX_RTP_HEADER_SIZE, isKey);
      packets := GenerateRtpPackets(c, curSeqNumber, frameNum, payload);
      FrameDataIs(c, curSeqNumber, frameNum, inbuf, isKey, payload, packets);
    }
  }
}
