/** The packets of a frame and of a run of frames, and what holds of them all. */
module VideoStream {
  import opened Bits
  import opened Vectors
  import opened WireFormat
  import opened PacketNumbers
  import opened VideoHeader
  import opened VideoFrame
  import opened VideoFec

  /** The data packets of s, numbered from number on. */
  ghost function DataPackets(c: Settings, number: nat, frame: nat, s: Bytes): (packets: seq<Bytes>)
    requires c.Ok() && |s| > 0
    ensures |packets| == Packets(|s|, c.Width())
    ensures forall nr :: 0 <= nr < |packets| ==> packets[nr] == DataPacket(c, number, frame, s, nr)
  {
    seq(Packets(|s|, c.Width()), nr requires 0 <= nr < Packets(|s|, c.Width()) => DataPacket(c, number, frame, s, nr))
  }

  function DataPacket(c: Settings, number: nat, frame: nat, s: Bytes, nr: nat): (packet: Bytes)
    requires c.Ok() && |s| > 0 && nr < Packets(|s|, c.Width())
  {
    RtpVideoHeader(number + nr, frame, nr, Packets(|s|, c.Width())) + PayloadAt(s, c.Width(), nr, c.addPadding)
  }

  /** The size that the packets are cut to is the one that error correction counts on. */
  lemma DataPacketsAreEven(c: Settings, number: nat, frame: nat, s: Bytes)
    requires c.Ok() && |s| > 0
    ensures |DataPackets(c, number, frame, s)| > 0
    ensures Even(DataPackets(c, number, frame, s), HEADER_SIZE + c.Width())
    ensures c.addPadding ==>
              forall nr :: 0 <= nr < |DataPackets(c, number, frame, s)| ==>
                |DataPackets(c, number, frame, s)[nr]| == HEADER_SIZE + c.Width()
  {
    PacketsCover(|s|, c.Width());
  }

  lemma DataPacketNumber(c: Settings, number: nat, frame: nat, s: Bytes, nr: nat)
    requires c.Ok() && |s| > 0 && nr < Packets(|s|, c.Width())
    ensures Number(DataPacket(c, number, frame, s, nr)) == (number + nr) % NUMBERS
  {
    NumberOfHeader(number + nr, frame, nr, Packets(|s|, c.Width()), PayloadAt(s, c.Width(), nr, c.addPadding));
  }

  lemma DataPacketsAreNumbered(c: Settings, number: nat, frame: nat, s: Bytes)
    requires c.Ok() && |s| > 0
    ensures Numbered(DataPackets(c, number, frame, s), number)
  {
    var packets := DataPackets(c, number, frame, s);
    forall i | 0 <= i < |packets|
      ensures |packets[i]| >= HEADER_SIZE && Number(packets[i]) == (number + i) % NUMBERS
    {
      DataPacketNumber(c, number, frame, s, i);
    }
  }

  // Blocks

  /** The packets that frame packets give to block k. */
  ghost function BlockInput(packets: seq<Bytes>, k: nat): (input: seq<Bytes>)
    requires |packets| > 0 && k < |Cuts(|packets|)| - 1
    ensures |input| == Cuts(|packets|)[k + 1] - Cuts(|packets|)[k] > 0
  {
    CutsPartition(|packets|, k);
    packets[Cuts(|packets|)[k]..Cuts(|packets|)[k + 1]]
  }

  ghost predicate FrameInput(c: Settings, packets: seq<Bytes>)
  {
    c.Ok() && |packets| > 0 && Even(packets, HEADER_SIZE + c.Width())
  }

  lemma BlockInputIsEven(c: Settings, packets: seq<Bytes>, k: nat)
    requires FrameInput(c, packets) && k < |Cuts(|packets|)| - 1
    ensures DetermineSplit(c, |BlockInput(packets, k)|).blockSize == HEADER_SIZE + c.Width()
    ensures Even(BlockInput(packets, k), HEADER_SIZE + c.Width())
  {
    CutsPartition(|packets|, k);
  }

  function LastBlock(n: nat): nat
  {
    if n > MULTI_BLOCK then LAST_OF_THREE else 0
  }

  /** Block k of a frame, numbered from number on. */
  ghost function BlockOut(c: Settings, number: nat, frame: nat, packets: seq<Bytes>, k: nat): (out: seq<Bytes>)
    requires FrameInput(c, packets) && k < |Cuts(|packets|)| - 1
  {
    BlockInputIsEven(c, packets, k);
    Block(c, number, frame, BlockInput(packets, k), k, LastBlock(|packets|))
  }

  /** The sender gives block k of the frame. */
  ghost predicate SenderGives(sender: (nat, nat) -> seq<Bytes>, c: Settings, frame: nat, packets: seq<Bytes>,
                              number: nat, k: nat)
    requires FrameInput(c, packets)
  {
    k < |Cuts(|packets|)| - 1 ==> sender(number, k) == BlockOut(c, number, frame, packets, k)
  }

  ghost predicate IsSender(sender: (nat, nat) -> seq<Bytes>, c: Settings, frame: nat, packets: seq<Bytes>)
    requires FrameInput(c, packets)
  {
    forall number: nat, k: nat :: SenderGives(sender, c, frame, packets, number, k)
  }

  lemma SenderExists(c: Settings, frame: nat, packets: seq<Bytes>)
    requires FrameInput(c, packets)
    ensures exists sender: (nat, nat) -> seq<Bytes> :: IsSender(sender, c, frame, packets)
  {
    var sender := (number: nat, k: nat) =>
      if k < |Cuts(|packets|)| - 1 then BlockOut(c, number, frame, packets, k) else [];
    forall number: nat, k: nat
      ensures SenderGives(sender, c, frame, packets, number, k)
    {
    }
    assert IsSender(sender, c, frame, packets);
  }

  ghost function Sender(c: Settings, frame: nat, packets: seq<Bytes>): (sender: (nat, nat) -> seq<Bytes>)
    requires FrameInput(c, packets)
    ensures IsSender(sender, c, frame, packets)
  {
    SenderExists(c, frame, packets);
    var sender: (nat, nat) -> seq<Bytes> :| IsSender(sender, c, frame, packets);
    sender
  }

  /** The packets of the first k blocks of a frame. */
  ghost function Sent(c: Settings, number: nat, frame: nat, packets: seq<Bytes>, k: nat): (out: seq<Bytes>)
    requires FrameInput(c, packets) && k < |Cuts(|packets|)|
  {
    Chain(Sender(c, frame, packets), number, k)
  }

  /** The number of the first packet of block k. */
  ghost function BlockNumber(c: Settings, number: nat, frame: nat, packets: seq<Bytes>, k: nat): nat
    requires FrameInput(c, packets) && k < |Cuts(|packets|)|
  {
    (number + |Sent(c, number, frame, packets, k)|) % WORDS
  }

  lemma SkippedBefore(c: Settings, packets: seq<Bytes>, k: nat)
    requires FrameInput(c, packets) && 0 < k < |Cuts(|packets|)| - 1 && !Fits(c, |BlockInput(packets, k)|)
    ensures !Fits(c, |BlockInput(packets, k - 1)|)
  {
    CutsPartition(|packets|, k);
    TotalGrows(c, |BlockInput(packets, k)|, |BlockInput(packets, k - 1)|);
  }

  lemma BlockIsNumbered(c: Settings, number: nat, frame: nat, packets: seq<Bytes>, k: nat, first: nat)
    requires FrameInput(c, packets) && k < |Cuts(|packets|)| - 1 && Numbered(packets, first)
    requires Fits(c, |BlockInput(packets, k)|) || number % NUMBERS == (first + Cuts(|packets|)[k]) % NUMBERS
    ensures Numbered(BlockOut(c, number, frame, packets, k), number)
  {
    var out := BlockOut(c, number, frame, packets, k);
    forall i | 0 <= i < |out|
      ensures |out[i]| >= HEADER_SIZE && Number(out[i]) == (number + i) % NUMBERS
    {
      PacketIsNumbered(c, number, frame, packets, k, first, i);
    }
  }

  lemma PacketIsNumbered(c: Settings, number: nat, frame: nat, packets: seq<Bytes>, k: nat, first: nat, i: nat)
    requires FrameInput(c, packets) && k < |Cuts(|packets|)| - 1 && Numbered(packets, first)
    requires Fits(c, |BlockInput(packets, k)|) || number % NUMBERS == (first + Cuts(|packets|)[k]) % NUMBERS
    requires i < |BlockOut(c, number, frame, packets, k)|
    ensures |BlockOut(c, number, frame, packets, k)[i]| >= HEADER_SIZE
    ensures Number(BlockOut(c, number, frame, packets, k)[i]) == (number + i) % NUMBERS
  {
    var input := BlockInput(packets, k);
    BlockInputIsEven(c, packets, k);
    BlockOutAt(c, number, frame, packets, k, i);
    if Fits(c, |input|) {
      CodedPacketNumber(c, number, frame, input, k, LastBlock(|packets|), i);
    } else {
      SameNumber(number, first + Cuts(|packets|)[k], i);
    }
  }

  lemma BlockOutAt(c: Settings, number: nat, frame: nat, packets: seq<Bytes>, k: nat, i: nat)
    requires FrameInput(c, packets) && k < |Cuts(|packets|)| - 1 && i < |BlockOut(c, number, frame, packets, k)|
    ensures DetermineSplit(c, |BlockInput(packets, k)|).blockSize == HEADER_SIZE + c.Width()
    ensures Even(BlockInput(packets, k), HEADER_SIZE + c.Width())
    ensures if Fits(c, |BlockInput(packets, k)|) then
              && i < DetermineSplit(c, |BlockInput(packets, k)|).Total()
              && BlockOut(c, number, frame, packets, k)[i]
                 == CodedPacket(c, number, frame, BlockInput(packets, k), k, LastBlock(|packets|), i)
            else
              && Cuts(|packets|)[k] + i < |packets|
              && BlockOut(c, number, frame, packets, k)[i] == packets[Cuts(|packets|)[k] + i]
  {
    BlockInputIsEven(c, packets, k);
    CutsPartition(|packets|, k);
  }

  /** What holds of the packets out of the first k blocks. */
  ghost predicate Progress(c: Settings, number: nat, packets: seq<Bytes>, k: nat, out: seq<Bytes>)
    requires FrameInput(c, packets) && k < |Cuts(|packets|)|
  {
    && Numbered(out, number)
    && (k == 0 || !Fits(c, |BlockInput(packets, k - 1)|) ==> |out| == Cuts(|packets|)[k])
  }

  /**
   A block without error correction keeps the numbers that its packets got at the start of the
   frame.  They are right, because no block before it can have had error correction.
   */
  lemma BlocksAreNumbered(c: Settings, number: nat, frame: nat, packets: seq<Bytes>, k: nat)
    requires FrameInput(c, packets) && k < |Cuts(|packets|)| && Numbered(packets, number)
    ensures Progress(c, number, packets, k, Sent(c, number, frame, packets, k))
  {
    var blocks := |Cuts(|packets|)| - 1;
    var sender := Sender(c, frame, packets);
    var inv := (k: nat, out: seq<Bytes>) => k <= blocks && Progress(c, number, packets, k, out);
    forall k: nat, before: seq<Bytes> | k < blocks
      ensures BlockKeeps(sender, number, inv, k, before)
    {
      var next := (number + |before|) % WORDS;
      assert SenderGives(sender, c, frame, packets, next, k);
      if inv(k, before) {
        NextIsNumbered(c, number, frame, packets, k + 1, before, next);
      }
    }
    ChainKeeps(sender, number, blocks, inv, k);
  }

  lemma NextIsNumbered(c: Settings, number: nat, frame: nat, packets: seq<Bytes>, k: nat, before: seq<Bytes>, next: nat)
    requires FrameInput(c, packets) && 0 < k < |Cuts(|packets|)| && Numbered(packets, number)
    requires Progress(c, number, packets, k - 1, before) && next == (number + |before|) % WORDS
    ensures Progress(c, number, packets, k, before + BlockOut(c, next, frame, packets, k - 1))
  {
    var j := k - 1;
    var out := BlockOut(c, next, frame, packets, j);
    SameNumber(next, number + |before|, 0);
    assert !Fits(c, |BlockInput(packets, j)|) ==> |before| == Cuts(|packets|)[j] by {
      if j > 0 && !Fits(c, |BlockInput(packets, j)|) {
        SkippedBefore(c, packets, j);
      }
    }
    assert Numbered(out, number + |before|) by {
      BlockIsNumbered(c, next, frame, packets, j, number);
      NumberedAlike(out, next, number + |before|);
    }
    NumberedJoin(before, out, number);
  }

  /** Packet i of block k is in the frame, behind the packets of the blocks before. */
  lemma BlockInFrame(c: Settings, number: nat, frame: nat, packets: seq<Bytes>, k: nat)
    requires FrameInput(c, packets) && k < |Cuts(|packets|)| - 1
    ensures Sent(c, number, frame, packets, k)
              + BlockOut(c, BlockNumber(c, number, frame, packets, k), frame, packets, k)
         <= Sent(c, number, frame, packets, |Cuts(|packets|)| - 1)
  {
    var sender, next := Sender(c, frame, packets), BlockNumber(c, number, frame, packets, k);
    assert SenderGives(sender, c, frame, packets, next, k);
    ChainHasBlock(sender, number, k, |Cuts(|packets|)| - 1, BlockOut(c, next, frame, packets, k));
  }

  // Frames

  ghost function FrameData(c: Settings, number: nat, frame: nat, inbuf: Bytes, isKey: bool): (packets: seq<Bytes>)
    requires c.Ok()
    ensures FrameInput(c, packets)
  {
    var s := WithShortHeader(inbuf, c.Width(), isKey);
    DataPacketsAreEven(c, number, frame, s);
    DataPackets(c, number, frame, s)
  }

  lemma FrameDataIs(c: Settings, number: nat, frame: nat, inbuf: Bytes, isKey: bool, s: Bytes, packets: seq<Bytes>)
    requires c.Ok() && s == WithShortHeader(inbuf, c.Width(), isKey) && packets == DataPackets(c, number, frame, s)
    ensures packets == FrameData(c, number, frame, inbuf, isKey)
  {
  }

  /** The packets of a frame after error correction; without it they are the data packets. */
  ghost function Corrected(c: Settings, number: nat, frame: nat, packets: seq<Bytes>): (out: seq<Bytes>)
    requires FrameInput(c, packets)
  {
    if c.fecPercentage > 0 then Sent(c, number, frame, packets, |Cuts(|packets|)| - 1) else packets
  }

  ghost function FramePackets(c: Settings, number: nat, frame: nat, inbuf: Bytes, isKey: bool): (out: seq<Bytes>)
    requires c.Ok()
  {
    Corrected(c, number, frame, FrameData(c, number, frame, inbuf, isKey))
  }

  lemma FramePacketsAre(c: Settings, number: nat, frame: nat, inbuf: Bytes, isKey: bool,
                        data: seq<Bytes>, out: seq<Bytes>)
    requires c.Ok() && data == FrameData(c, number, frame, inbuf, isKey)
    requires out == Corrected(c, number, frame, data)
    ensures out == FramePackets(c, number, frame, inbuf, isKey)
  {
  }

  lemma FrameIsNumbered(c: Settings, number: nat, frame: nat, inbuf: Bytes, isKey: bool)
    requires c.Ok()
    ensures Numbered(FramePackets(c, number, frame, inbuf, isKey), number)
  {
    var packets := FrameData(c, number, frame, inbuf, isKey);
    DataPacketsAreNumbered(c, number, frame, WithShortHeader(inbuf, c.Width(), isKey));
    BlocksAreNumbered(c, number, frame, packets, |Cuts(|packets|)| - 1);
  }

  /** The element's payload size keeps the last length in its 16 bits: cutting and joining always give the frame. */
  lemma FrameIsJoined(c: Settings, inbuf: Bytes, isKey: bool)
    requires c.Ok()
    ensures var ps := Payloads(WithShortHeader(inbuf, c.Width(), isKey), c.Width(), c.addPadding);
            |ps| > 0 && Joined(ps) == inbuf
  {
    JoinedIsFrame(inbuf, c.Width(), isKey, c.addPadding);
  }

  // Runs

  /** A frame to send, with the properties that are in force then. */
  datatype Input = Input(c: Settings, inbuf: Bytes, isKey: bool)

  ghost predicate AllOk(inputs: seq<Input>)
  {
    forall i :: 0 <= i < |inputs| ==> inputs[i].c.Ok()
  }

  /** The sender gives the packets of frames. */
  ghost predicate FrameGives(send: (Input, nat, nat) -> seq<Bytes>, x: Input, number: nat, frame: nat)
  {
    x.c.Ok() ==> send(x, number, frame) == FramePackets(x.c, number, frame, x.inbuf, x.isKey)
  }

  ghost predicate IsFrameSender(send: (Input, nat, nat) -> seq<Bytes>)
  {
    forall x: Input, number: nat, frame: nat :: FrameGives(send, x, number, frame)
  }

  lemma FrameSenderExists()
    ensures exists send: (Input, nat, nat) -> seq<Bytes> :: IsFrameSender(send)
  {
    var send := (x: Input, number: nat, frame: nat) =>
      if x.c.Ok() then FramePackets(x.c, number, frame, x.inbuf, x.isKey) else [];
    forall x: Input, number: nat, frame: nat
      ensures FrameGives(send, x, number, frame)
    {
    }
    assert IsFrameSender(send);
  }

  ghost function FrameSender(): (send: (Input, nat, nat) -> seq<Bytes>)
    ensures IsFrameSender(send)
  {
    FrameSenderExists();
    var send: (Input, nat, nat) -> seq<Bytes> :| IsFrameSender(send);
    send
  }

  /** The counter and the packets after a run. */
  ghost function Run(inputs: seq<Input>): (r: Stream)
    ensures r.number < WORDS
  {
    RunOf(inputs, FrameSender(), (x: Input) => x.c.fecPercentage > 0)
  }

  /**
   As long as error correction is on, the packets of a run carry consecutive numbers modulo 2^16,
   as section 5.1 of RFC 3550 asks, across frames, blocks and skipped blocks.
   */
  lemma RunIsNumbered(inputs: seq<Input>)
    requires AllOk(inputs) && forall i :: 0 <= i < |inputs| ==> inputs[i].c.fecPercentage > 0
    ensures InStep(Run(inputs))
  {
    var send := FrameSender();
    forall i | 0 <= i < |inputs|
      ensures SendsNumbered(send, inputs[i])
    {
      var x := inputs[i];
      forall number: nat, frame: nat
        ensures Numbered(send(x, number, frame), number)
      {
        assert FrameGives(send, x, number, frame);
        FrameIsNumbered(x.c, number, frame, x.inbuf, x.isKey);
      }
    }
    RunOfInStep(inputs, send, (x: Input) => x.c.fecPercentage > 0);
  }

  /** A run goes on with the packets of the next frame, whose number counts the frames modulo 2^32. */
  lemma RunNext(inputs: seq<Input>, x: Input, number: nat, emitted: seq<Bytes>, packets: seq<Bytes>)
    requires x.c.Ok() && Run(inputs) == Stream(number, emitted)
    requires packets == FramePackets(x.c, number, |inputs| % 0x1_0000_0000, x.inbuf, x.isKey)
    ensures Run(inputs + [x])
         == Stream(if x.c.fecPercentage > 0 then (number + |packets|) % 0x1_0000_0000 else number, emitted + packets)
  {
    assert packets == FrameSender()(x, number, |inputs| % WORDS) by {
      assert FrameGives(FrameSender(), x, number, |inputs| % WORDS);
    }
    RunOfNext(inputs, FrameSender(), (y: Input) => y.c.fecPercentage > 0, x, Stream(number, emitted), packets);
  }

  /** The frame has error correction, or its packets go round all numbers. */
  predicate LeavesCounter(x: Input)
    requires x.c.Ok()
  {
    x.c.fecPercentage > 0 || Packets(SHORT_HEADER_SIZE + |x.inbuf|, x.c.Width()) % NUMBERS == 0
  }

  /**
   Without error correction the counter stands still: the packets of a run carry consecutive
   numbers if and only if every frame but the last has error correction, or a number of packets
   that goes round 2^16.
   */
  lemma CounterStands(inputs: seq<Input>)
    requires AllOk(inputs)
    ensures Numbered(Run(inputs).out, 0) <==> forall i :: 0 <= i < |inputs| - 1 ==> LeavesCounter(inputs[i])
  {
    var send := FrameSender();
    var moves, keeps := (x: Input) => x.c.fecPercentage > 0, (x: Input) => x.c.Ok() && LeavesCounter(x);
    forall i | 0 <= i < |inputs|
      ensures SendsLike(send, moves, keeps, inputs[i])
    {
      FrameLeavesCounter(inputs[i]);
    }
    RunOfStands(inputs, send, moves, keeps);
  }

  lemma FrameLeavesCounter(x: Input)
    requires x.c.Ok()
    ensures SendsLike(FrameSender(), (y: Input) => y.c.fecPercentage > 0, (y: Input) => y.c.Ok() && LeavesCounter(y), x)
  {
    var send := FrameSender();
    forall number: nat, frame: nat
      ensures Numbered(send(x, number, frame), number) && |send(x, number, frame)| > 0
      ensures LeavesCounter(x) <==> x.c.fecPercentage > 0 || |send(x, number, frame)| % NUMBERS == 0
    {
      assert FrameGives(send, x, number, frame);
      FrameIsNumbered(x.c, number, frame, x.inbuf, x.isKey);
      FrameNotEmpty(x.c, number, frame, x.inbuf, x.isKey);
    }
  }

  /** Two frames of one packet each, without error correction: both packets have number 0. */
  lemma TwoFramesAlike()
    ensures var x := Input(Settings(1392, true, 0, 2), [], true);
            AllOk([x, x]) && !Numbered(Run([x, x]).out, 0)
  {
    var x := Input(Settings(1392, true, 0, 2), [], true);
    CounterStands([x, x]);
    assert !LeavesCounter([x, x][0]);
  }

  lemma FrameNotEmpty(c: Settings, number: nat, frame: nat, inbuf: Bytes, isKey: bool)
    requires c.Ok()
    ensures |FramePackets(c, number, frame, inbuf, isKey)| > 0
  {
    var packets := FrameData(c, number, frame, inbuf, isKey);
    var blocks := |Cuts(|packets|)| - 1;
    var sender := Sender(c, frame, packets);
    var inv := (k: nat, out: seq<Bytes>) => k > 0 ==> |out| > 0;
    forall k: nat, before: seq<Bytes> | k < blocks
      ensures BlockKeeps(sender, number, inv, k, before)
    {
      var next := (number + |before|) % WORDS;
      assert SenderGives(sender, c, frame, packets, next, k);
      BlockNotEmpty(c, next, frame, packets, k);
    }
    ChainKeeps(sender, number, blocks, inv, blocks);
  }

  lemma BlockNotEmpty(c: Settings, number: nat, frame: nat, packets: seq<Bytes>, k: nat)
    requires FrameInput(c, packets) && k < |Cuts(|packets|)| - 1
    ensures |BlockOut(c, number, frame, packets, k)| > 0
  {
    BlockInputIsEven(c, packets, k);
  }

  // The second counter, in the header of every data packet

  /** The stream index of a packet: the upper 24 bits of its word. */
  function StreamIndex(packet: Bytes): nat
    requires |packet| >= HEADER_SIZE
  {
    ReadLittle32(packet, 16) / 0x100
  }

  lemma StreamIndexIs(packet: Bytes, n: nat)
    requires |packet| >= HEADER_SIZE && packet[16..20] == Little32(n * 0x100)
    ensures StreamIndex(packet) % NUMBERS == n % NUMBERS
  {
    ReadLittle32Of(packet, 16, n * 0x100);
    UpperBits(n);
  }

  lemma SameStreamIndex(packet: Bytes, source: Bytes, n: nat, m: nat)
    requires |packet| >= HEADER_SIZE && |source| >= HEADER_SIZE && packet[16..20] == source[16..20]
    requires source[16..20] == Little32(n * 0x100) && m == n
    ensures StreamIndex(packet) % NUMBERS == m % NUMBERS
  {
    StreamIndexIs(packet, n);
  }

  lemma DataIndex(c: Settings, number: nat, frame: nat, packets: seq<Bytes>, k: nat, i: nat)
    requires FrameInput(c, packets) && k < |Cuts(|packets|)| - 1 && i < |BlockInput(packets, k)|
    ensures |BlockOut(c, number, frame, packets, k)| > i
    ensures |BlockOut(c, number, frame, packets, k)[i]| >= HEADER_SIZE
    ensures BlockOut(c, number, frame, packets, k)[i][16..20] == packets[Cuts(|packets|)[k] + i][16..20]
  {
    BlockInputIsEven(c, packets, k);
    var input := BlockInput(packets, k);
    if Fits(c, |input|) {
      assert BlockOut(c, number, frame, packets, k)[i]
          == CodedPacket(c, number, frame, input, k, LastBlock(|packets|), i);
    }
  }

  /** The packets that were sent before block k, counted. */
  ghost predicate SentCount(c: Settings, packets: seq<Bytes>, k: nat, sent: nat)
    requires FrameInput(c, packets) && k < |Cuts(|packets|)|
  {
    && Cuts(|packets|)[k] <= sent <= Cuts(|packets|)[k] + MAX_SHARDS * k
    && (sent == Cuts(|packets|)[k] <==> k == 0 || !Fits(c, |BlockInput(packets, k - 1)|))
  }

  /** Every block with error correction adds parity, and none without it comes later. */
  lemma SentCounts(c: Settings, number: nat, frame: nat, packets: seq<Bytes>, k: nat)
    requires FrameInput(c, packets) && k < |Cuts(|packets|)| && c.fecPercentage > 0
    ensures SentCount(c, packets, k, |Sent(c, number, frame, packets, k)|)
  {
    var blocks := |Cuts(|packets|)| - 1;
    var sender := Sender(c, frame, packets);
    var inv := (k: nat, out: seq<Bytes>) => k <= blocks && SentCount(c, packets, k, |out|);
    forall k: nat, before: seq<Bytes> | k < blocks
      ensures BlockKeeps(sender, number, inv, k, before)
    {
      var next := (number + |before|) % WORDS;
      assert SenderGives(sender, c, frame, packets, next, k);
      if inv(k, before) {
        NextCounts(c, next, frame, packets, k, before);
      }
    }
    ChainKeeps(sender, number, blocks, inv, k);
  }

  lemma NextCounts(c: Settings, next: nat, frame: nat, packets: seq<Bytes>, k: nat, before: seq<Bytes>)
    requires FrameInput(c, packets) && k < |Cuts(|packets|)| - 1 && c.fecPercentage > 0
    requires SentCount(c, packets, k, |before|)
    ensures SentCount(c, packets, k + 1, |before + BlockOut(c, next, frame, packets, k)|)
  {
    var n := |BlockInput(packets, k)|;
    BlockInputIsEven(c, packets, k);
    ParityPositive(c, n);
    if k > 0 && !Fits(c, n) {
      SkippedBefore(c, packets, k);
    }
  }

  /**
   Error correction renumbers the packets of a block but leaves their stream index as it was at
   the start of the frame: the two agree in the first block, and in a later one exactly when the
   block before it is too large for error correction.
   */
  lemma StreamIndexLags(c: Settings, number: nat, frame: nat, inbuf: Bytes, isKey: bool, k: nat, i: nat)
    requires c.Ok() && c.fecPercentage > 0
    requires var cuts := Cuts(Packets(SHORT_HEADER_SIZE + |inbuf|, c.Width()));
             k < |cuts| - 1 && i < cuts[k + 1] - cuts[k]
    ensures var cuts := Cuts(Packets(SHORT_HEADER_SIZE + |inbuf|, c.Width()));
            var packets := FrameData(c, number, frame, inbuf, isKey);
            && |cuts| == |Cuts(|packets|)| && (k > 0 ==> cuts[k] - cuts[k - 1] > 0)
            && var out := BlockOut(c, BlockNumber(c, number, frame, packets, k), frame, packets, k);
            && |out| > i && |out[i]| >= HEADER_SIZE
            && (StreamIndex(out[i]) % NUMBERS == Number(out[i]) <==> k == 0 || !Fits(c, cuts[k] - cuts[k - 1]))
  {
    var packets := FrameData(c, number, frame, inbuf, isKey);
    var s := WithShortHeader(inbuf, c.Width(), isKey);
    DataPacketsAreNumbered(c, number, frame, s);
    DataPacketsAreIndexed(c, number, frame, s);
    IndexLags(c, number, frame, packets, k, i);
    CountLags(c, number, frame, packets, k);
  }

  lemma IndexLags(c: Settings, number: nat, frame: nat, packets: seq<Bytes>, k: nat, i: nat)
    requires FrameInput(c, packets) && Numbered(packets, number) && Indexed(packets, number)
    requires k < |Cuts(|packets|)| - 1 && i < |BlockInput(packets, k)|
    ensures var next := BlockNumber(c, number, frame, packets, k);
            var out := BlockOut(c, next, frame, packets, k);
            && |out| > i && |out[i]| >= HEADER_SIZE
            && (StreamIndex(out[i]) % NUMBERS == Number(out[i]) <==>
                |Sent(c, number, frame, packets, k)| % NUMBERS == Cuts(|packets|)[k] % NUMBERS)
  {
    var next := BlockNumber(c, number, frame, packets, k);
    var cut, sent := Cuts(|packets|)[k], |Sent(c, number, frame, packets, k)|;
    IndexIs(c, number, frame, packets, k, next, i);
    NumberInBlock(c, number, frame, packets, k, next, i);
    var packet := BlockOut(c, next, frame, packets, k)[i];
    Lags(StreamIndex(packet) % NUMBERS, Number(packet), number + i, cut, sent);
  }

  lemma IndexIs(c: Settings, number: nat, frame: nat, packets: seq<Bytes>, k: nat, next: nat, i: nat)
    requires FrameInput(c, packets) && Indexed(packets, number)
    requires k < |Cuts(|packets|)| - 1 && i < |BlockInput(packets, k)|
    ensures var out := BlockOut(c, next, frame, packets, k);
            && |out| > i && |out[i]| >= HEADER_SIZE
            && StreamIndex(out[i]) % NUMBERS == (number + i + Cuts(|packets|)[k]) % NUMBERS
  {
    var cut := Cuts(|packets|)[k];
    CutsPartition(|packets|, k);
    IndexedAt(packets, number, cut + i, number + i + cut);
    IndexInBlock(c, frame, packets, k, next, i, number + i + cut);
  }

  lemma CountLags(c: Settings, number: nat, frame: nat, packets: seq<Bytes>, k: nat)
    requires FrameInput(c, packets) && k < |Cuts(|packets|)| - 1 && c.fecPercentage > 0
    ensures |Sent(c, number, frame, packets, k)| % NUMBERS == Cuts(|packets|)[k] % NUMBERS <==>
            k == 0 || !Fits(c, |BlockInput(packets, k - 1)|)
  {
    SentCounts(c, number, frame, packets, k);
    SameCount(|Sent(c, number, frame, packets, k)|, Cuts(|packets|)[k]);
  }

  lemma SameCount(sent: nat, cut: nat)
    requires cut <= sent < cut + NUMBERS
    ensures sent % NUMBERS == cut % NUMBERS <==> sent == cut
  {
  }

  /** The second of three blocks with the default properties: its parity before makes the two differ. */
  lemma SecondBlockLags(number: nat, frame: nat, inbuf: Bytes, isKey: bool)
    requires |inbuf| == 91 * 1376 - SHORT_HEADER_SIZE
    ensures var c := Settings(1392, true, 20, 2);
            var packets := FrameData(c, number, frame, inbuf, isKey);
            && |Cuts(|packets|)| == 4
            && var out := BlockOut(c, BlockNumber(c, number, frame, packets, 1), frame, packets, 1);
            && |out| > 0 && |out[0]| >= HEADER_SIZE && StreamIndex(out[0]) % NUMBERS != Number(out[0])
  {
    StreamIndexLags(Settings(1392, true, 20, 2), number, frame, inbuf, isKey, 1, 0);
  }

  lemma IndexedAt(packets: seq<Bytes>, first: nat, nr: nat, n: nat)
    requires Indexed(packets, first) && nr < |packets| && n == first + nr
    ensures packets[nr][16..20] == Little32(n * 0x100)
  {
  }

  /** At the start of the frame the stream index of packet nr is number first + nr. */
  ghost predicate Indexed(packets: seq<Bytes>, first: nat)
  {
    forall nr :: 0 <= nr < |packets| ==>
      |packets[nr]| >= HEADER_SIZE && packets[nr][16..20] == Little32((first + nr) * 0x100)
  }

  lemma DataPacketsAreIndexed(c: Settings, number: nat, frame: nat, s: Bytes)
    requires c.Ok() && |s| > 0
    ensures Indexed(DataPackets(c, number, frame, s), number)
  {
    var packets := DataPackets(c, number, frame, s);
    forall nr | 0 <= nr < |packets|
      ensures |packets[nr]| >= HEADER_SIZE && packets[nr][16..20] == Little32((number + nr) * 0x100)
    {
      DataPacketIndex(c, number, frame, s, nr);
    }
  }

  lemma DataPacketIndex(c: Settings, number: nat, frame: nat, s: Bytes, nr: nat)
    requires c.Ok() && |s| > 0 && nr < Packets(|s|, c.Width())
    ensures |DataPacket(c, number, frame, s, nr)| >= HEADER_SIZE
    ensures DataPacket(c, number, frame, s, nr)[16..20] == Little32((number + nr) * 0x100)
  {
    var h := RtpVideoHeader(number + nr, frame, nr, Packets(|s|, c.Width()));
    assert (h + PayloadAt(s, c.Width(), nr, c.addPadding))[16..20] == h[16..20];
  }

  lemma IndexInBlock(c: Settings, frame: nat, packets: seq<Bytes>, k: nat, next: nat, i: nat, n: nat)
    requires FrameInput(c, packets) && k < |Cuts(|packets|)| - 1 && i < |BlockInput(packets, k)|
    requires Cuts(|packets|)[k] + i < |packets| && packets[Cuts(|packets|)[k] + i][16..20] == Little32(n * 0x100)
    ensures var out := BlockOut(c, next, frame, packets, k);
            |out| > i && |out[i]| >= HEADER_SIZE && StreamIndex(out[i]) % NUMBERS == n % NUMBERS
  {
    DataIndex(c, next, frame, packets, k, i);
    SameStreamIndex(BlockOut(c, next, frame, packets, k)[i], packets[Cuts(|packets|)[k] + i], n, n);
  }

  lemma NumberInBlock(c: Settings, number: nat, frame: nat, packets: seq<Bytes>, k: nat, next: nat, i: nat)
    requires FrameInput(c, packets) && k < |Cuts(|packets|)| - 1 && Numbered(packets, number)
    requires next == BlockNumber(c, number, frame, packets, k) && i < |BlockOut(c, next, frame, packets, k)|
    ensures var out := BlockOut(c, next, frame, packets, k);
            && |out[i]| >= HEADER_SIZE
            && Number(out[i]) == (number + i + |Sent(c, number, frame, packets, k)|) % NUMBERS
  {
    SentBlockIsNumbered(c, number, frame, packets, k, next);
    NumberAt(BlockOut(c, next, frame, packets, k), next, number + |Sent(c, number, frame, packets, k)|, i);
  }

  lemma SkippedStart(c: Settings, number: nat, frame: nat, packets: seq<Bytes>, k: nat)
    requires FrameInput(c, packets) && k < |Cuts(|packets|)| - 1 && Numbered(packets, number)
    requires !Fits(c, |BlockInput(packets, k)|)
    ensures |Sent(c, number, frame, packets, k)| == Cuts(|packets|)[k]
  {
    BlocksAreNumbered(c, number, frame, packets, k);
    if k > 0 {
      SkippedBefore(c, packets, k);
    }
  }

  /** Every block of a frame is numbered from its first number on. */
  lemma SentBlockIsNumbered(c: Settings, number: nat, frame: nat, packets: seq<Bytes>, k: nat, next: nat)
    requires FrameInput(c, packets) && k < |Cuts(|packets|)| - 1 && Numbered(packets, number)
    requires next == BlockNumber(c, number, frame, packets, k)
    ensures Numbered(BlockOut(c, next, frame, packets, k), next)
  {
    if !Fits(c, |BlockInput(packets, k)|) {
      SkippedStart(c, number, frame, packets, k);
      SameNumber(next, number + Cuts(|packets|)[k], 0);
    }
    BlockIsNumbered(c, next, frame, packets, k, number);
  }

  // What the receiver gets out of a frame

  ghost predicate PieceAt<T>(xs: seq<T>, cuts: seq<nat>, pieces: seq<seq<T>>, k: nat)
    requires k < |pieces| < |cuts|
  {
    cuts[k] <= cuts[k + 1] <= |xs| && pieces[k] == xs[cuts[k]..cuts[k + 1]]
  }

  lemma {:induction false} JoinPieces<T>(xs: seq<T>, cuts: seq<nat>, pieces: seq<seq<T>>, k: nat)
    requires k <= |pieces| < |cuts| && cuts[0] == 0
    requires forall j :: 0 <= j < k ==> PieceAt(xs, cuts, pieces, j)
    ensures k > 0 ==> cuts[k] <= |xs|
    ensures Join(pieces[..k]) == if k == 0 then [] else xs[..cuts[k]]
  {
    if k > 0 {
      assert PieceAt(xs, cuts, pieces, k - 1);
      JoinPieces(xs, cuts, pieces, k - 1);
      assert pieces[..k][..k - 1] == pieces[..k - 1];
    }
  }

  /** The payload columns of the data packets are the payloads with padding. */
  lemma TailsArePayloads(c: Settings, number: nat, frame: nat, s: Bytes)
    requires c.Ok() && |s| > 0
    ensures Even(DataPackets(c, number, frame, s), HEADER_SIZE + c.Width())
    ensures Tails(DataPackets(c, number, frame, s), HEADER_SIZE + c.Width()) == Payloads(s, c.Width(), true)
  {
    DataPacketsAreEven(c, number, frame, s);
    var bs := HEADER_SIZE + c.Width();
    var packets, ps := DataPackets(c, number, frame, s), Payloads(s, c.Width(), true);
    forall nr | 0 <= nr < |packets|
      ensures Tails(packets, bs)[nr] == ps[nr]
    {
      TailIsPayload(c, number, frame, s, nr);
    }
  }

  lemma TailIsPayload(c: Settings, number: nat, frame: nat, s: Bytes, nr: nat)
    requires c.Ok() && |s| > 0 && nr < Packets(|s|, c.Width())
    ensures |DataPacket(c, number, frame, s, nr)| <= HEADER_SIZE + c.Width()
    ensures Padded(DataPacket(c, number, frame, s, nr), HEADER_SIZE + c.Width())[HEADER_SIZE..]
         == PayloadAt(s, c.Width(), nr, true)
  {
    var payload := PayloadAt(s, c.Width(), nr, c.addPadding);
    PayloadStarts(s, c.Width(), nr);
    PayloadFilled(s, c.Width(), nr * c.Width(), c.addPadding);
    HeaderCutOff(RtpVideoHeader(number + nr, frame, nr, Packets(|s|, c.Width())), payload, c.Width());
  }

  lemma HeaderCutOff(h: Bytes, payload: Bytes, w: nat)
    requires |h| == HEADER_SIZE && |payload| <= w
    ensures Padded(h + payload, HEADER_SIZE + w)[HEADER_SIZE..] == payload + Zeros(w - |payload|)
  {
  }

  /** What was received of block k, of which no more packets are lost than there is parity for it. */
  ghost predicate BlockReceived(c: Settings, number: nat, frame: nat, packets: seq<Bytes>, k: nat,
                                marks: seq<u8>, received: seq<Row>)
    requires FrameInput(c, packets) && k < |Cuts(|packets|)| - 1
  {
    var out := BlockOut(c, number, frame, packets, k);
    && Bearable(c, |BlockInput(packets, k)|, marks) && |out| <= |marks|
    && Received(received, out, marks, HEADER_SIZE + c.Width())
  }

  ghost function RecoveredOf(c: Settings, number: nat, frame: nat, packets: seq<Bytes>, k: nat,
                             marks: seq<u8>, received: seq<Row>): (rows: seq<Row>)
    requires FrameInput(c, packets) && k < |Cuts(|packets|)| - 1
    requires BlockReceived(c, number, frame, packets, k, marks, received)
  {
    BlockInputIsEven(c, packets, k);
    Recovered(c, |BlockInput(packets, k)|, marks, received)
  }

  lemma BlockInputRecovers(c: Settings, number: nat, frame: nat, packets: seq<Bytes>, k: nat,
                           marks: seq<u8>, received: seq<Row>)
    requires FrameInput(c, packets) && k < |Cuts(|packets|)| - 1
    requires BlockReceived(c, number, frame, packets, k, marks, received)
    ensures Cuts(|packets|)[k] <= Cuts(|packets|)[k + 1] <= |packets|
    ensures RecoveredOf(c, number, frame, packets, k, marks, received)
         == Tails(packets, HEADER_SIZE + c.Width())[Cuts(|packets|)[k]..Cuts(|packets|)[k + 1]]
  {
    CutsPartition(|packets|, k);
    BlockInputIsEven(c, packets, k);
    BlockRecovers(c, number, frame, BlockInput(packets, k), k, LastBlock(|packets|), marks, received);
    TailsOfSlice(packets, Cuts(|packets|)[k], Cuts(|packets|)[k + 1], HEADER_SIZE + c.Width());
  }

  lemma TailsOfSlice(packets: seq<Bytes>, lo: nat, hi: nat, bs: nat)
    requires lo <= hi <= |packets| && bs >= HEADER_SIZE && forall i :: 0 <= i < |packets| ==> |packets[i]| <= bs
    ensures Tails(packets[lo..hi], bs) == Tails(packets, bs)[lo..hi]
  {
  }

  ghost predicate FrameReceived(c: Settings, number: nat, frame: nat, packets: seq<Bytes>,
                                marks: seq<seq<u8>>, received: seq<seq<Row>>)
    requires FrameInput(c, packets)
  {
    && |marks| == |received| == |Cuts(|packets|)| - 1
    && forall k :: 0 <= k < |marks| ==>
         BlockReceived(c, BlockNumber(c, number, frame, packets, k), frame, packets, k, marks[k], received[k])
  }

  /** The payloads of all data packets, block by block. */
  ghost function FrameRecovered(c: Settings, number: nat, frame: nat, packets: seq<Bytes>,
                                marks: seq<seq<u8>>, received: seq<seq<Row>>): (pieces: seq<seq<Row>>)
    requires FrameInput(c, packets) && FrameReceived(c, number, frame, packets, marks, received)
    ensures |pieces| == |marks|
  {
    seq(|marks|, k requires 0 <= k < |marks| =>
      RecoveredOf(c, BlockNumber(c, number, frame, packets, k), frame, packets, k, marks[k], received[k]))
  }

  lemma FramePiece(c: Settings, number: nat, frame: nat, packets: seq<Bytes>,
                   marks: seq<seq<u8>>, received: seq<seq<Row>>, k: nat)
    requires FrameInput(c, packets) && FrameReceived(c, number, frame, packets, marks, received) && k < |marks|
    ensures PieceAt(Tails(packets, HEADER_SIZE + c.Width()), Cuts(|packets|),
                    FrameRecovered(c, number, frame, packets, marks, received), k)
  {
    BlockInputRecovers(c, BlockNumber(c, number, frame, packets, k), frame, packets, k, marks[k], received[k]);
  }

  /**
   End to end: a frame is cut, numbered and coded; of each block as many packets as it has parity
   are lost; what the receiver decodes and joins is the frame.
   */
  lemma FrameRecovers(c: Settings, number: nat, frame: nat, inbuf: Bytes, isKey: bool,
                      marks: seq<seq<u8>>, received: seq<seq<Row>>)
    requires c.Ok() && c.fecPercentage > 0
    requires FrameReceived(c, number, frame, FrameData(c, number, frame, inbuf, isKey), marks, received)
    ensures var packets := FrameData(c, number, frame, inbuf, isKey);
            var rows := Join(FrameRecovered(c, number, frame, packets, marks, received));
            |rows| > 0 && Joined(rows) == inbuf
  {
    var s := WithShortHeader(inbuf, c.Width(), isKey);
    var packets := FrameData(c, number, frame, inbuf, isKey);
    var xs := Tails(packets, HEADER_SIZE + c.Width());
    assert xs == Payloads(s, c.Width(), true) by {
      TailsArePayloads(c, number, frame, s);
    }
    AllPieces(c, number, frame, packets, marks, received);
    JoinedIsFrame(inbuf, c.Width(), isKey, true);
  }

  lemma AllPieces(c: Settings, number: nat, frame: nat, packets: seq<Bytes>,
                  marks: seq<seq<u8>>, received: seq<seq<Row>>)
    requires FrameInput(c, packets) && FrameReceived(c, number, frame, packets, marks, received)
    ensures Join(FrameRecovered(c, number, frame, packets, marks, received)) == Tails(packets, HEADER_SIZE + c.Width())
  {
    var cuts := Cuts(|packets|);
    var xs := Tails(packets, HEADER_SIZE + c.Width());
    var pieces := FrameRecovered(c, number, frame, packets, marks, received);
    forall k | 0 <= k < |pieces|
      ensures PieceAt(xs, cuts, pieces, k)
    {
      FramePiece(c, number, frame, packets, marks, received, k);
    }
    JoinPieces(xs, cuts, pieces, |pieces|);
    assert pieces[..|pieces|] == pieces && xs[..|packets|] == xs;
  }
}
