/** The packets of a frame byte by byte, as a receiver finds them. */
module VideoWire {
  import opened Memory
  import opened Vectors
  import opened WireFormat
  import opened PacketNumbers
  import opened VideoHeader
  import opened VideoFrame
  import opened VideoFec
  import opened VideoStream

  /** Four bytes as a number, the lowest one first. */
  function Word(p: Bytes, at: nat): int
    requires at + 4 <= |p|
  {
    p[at] as int + 0x100 * (p[at + 1] as int) + 0x1_0000 * (p[at + 2] as int) + 0x100_0000 * (p[at + 3] as int)
  }

  /** What all packets have: version and extension, number, frame number, and that there may be blocks. */
  ghost predicate HasHeader(p: Bytes, number: nat, frame: nat)
  {
    && |p| >= 32 && p[0] == 0x90 && p[2] as int * 0x100 + p[3] as int == number % 0x1_0000
    && Word(p, 20) == frame % 0x1_0000_0000 && p[26] == 0x10
  }

  /** What data packet nr of n has: its index, the flags for picture data, start and end of the frame, its payload. */
  ghost predicate IsData(p: Bytes, index: nat, nr: nat, n: nat, payload: Bytes)
  {
    && |p| >= 32 && p[1] == 0 && (forall i :: 4 <= i < 16 ==> p[i] == 0)
    && Word(p, 16) == index * 0x100 % 0x1_0000_0000
    && p[24] == 1 + (if nr == 0 then 4 else 0) + (if nr == n - 1 then 2 else 0) && p[25] == 0
    && p[32..] == payload
  }

  /** The block fields: block k of three, or the only one. */
  ghost predicate InBlock(p: Bytes, k: nat, blocks: nat)
  {
    |p| >= 32 && p[27] as int == 0x10 * k + if blocks == 3 then 2 * 0x40 else 0
  }

  /** The word for error correction: place in the block, number of data packets, and percentage. */
  ghost predicate HasPlace(p: Bytes, i: nat, m: nat, percentage: nat)
  {
    && |p| >= 32
    && Word(p, 28) / 0x1000 % 0x400 == i && Word(p, 28) / 0x40_0000 == m && Word(p, 28) / 0x10 % 0x100 == percentage
  }

  // Data packets before error correction

  lemma WordOf(p: Bytes, at: nat, n: nat)
    requires at + 4 <= |p| && p[at..at + 4] == Little32(n)
    ensures Word(p, at) == n % 0x1_0000_0000
  {
    SliceAt(p, at, Little32(n));
    LittleDigits(n);
  }

  lemma NumberOfBytes(p: Bytes, number: nat)
    requires |p| >= 4 && p[2..4] == Big16(number)
    ensures p[2] as int * 0x100 + p[3] as int == number % 0x1_0000
  {
    SliceAt(p, 2, Big16(number));
    TwoDigits(number);
  }

  lemma HeaderIs(h: Bytes, number: nat, frame: nat, nr: nat, total: nat)
    requires h == RtpVideoHeader(number, frame, nr, total)
    ensures h == [0x90, 0] + Big16(number) + [0, 0, 0, 0, 0, 0, 0, 0, 0, 0, 0, 0] + Little32(number * 0x100)
                 + Little32(frame) + [Flags(nr, total), 0, 0x10, 0] + Little32(FecInfo(nr, total, 0))
  {
    assert Big32(0) == [0, 0, 0, 0] && Zeros(4) == [0, 0, 0, 0];
  }

  /** A data packet as it is cut out of the frame. */
  lemma DataPacketOnWire(c: Settings, number: nat, frame: nat, s: Bytes, nr: nat)
    requires c.Ok() && |s| > 0 && nr < Packets(|s|, c.Width())
    ensures var p := DataPacket(c, number, frame, s, nr);
            && HasHeader(p, number + nr, frame) && p[27] == 0
            && IsData(p, number + nr, nr, Packets(|s|, c.Width()), PayloadAt(s, c.Width(), nr, c.addPadding))
  {
    var n, payload := Packets(|s|, c.Width()), PayloadAt(s, c.Width(), nr, c.addPadding);
    var h := RtpVideoHeader(number + nr, frame, nr, n);
    HeaderIs(h, number + nr, frame, nr, n);
    HeaderOnWire(h + payload, h, payload, number + nr, frame, nr, n);
  }

  lemma HeaderOnWire(p: Bytes, h: Bytes, payload: Bytes, number: nat, frame: nat, nr: nat, n: nat)
    requires h == [0x90, 0] + Big16(number) + [0, 0, 0, 0, 0, 0, 0, 0, 0, 0, 0, 0] + Little32(number * 0x100)
                  + Little32(frame) + [Flags(nr, n), 0, 0x10, 0] + Little32(FecInfo(nr, n, 0))
    requires p == h + payload
    ensures HasHeader(p, number, frame) && IsData(p, number, nr, n, payload) && p[27] == 0
  {
    assert p[2..4] == Big16(number) && p[16..20] == Little32(number * 0x100) && p[20..24] == Little32(frame);
    WordOf(p, 16, number * 0x100);
    NumberOfBytes(p, number);
    WordOf(p, 20, frame);
  }

  // Packets after error correction

  lemma CorrectedHeader(packet: Bytes, number: nat, frame: nat, place: Place)
    requires |packet| >= 32
    ensures var p := WithFecInfo(packet, number, frame, place);
            && HasHeader(p, number, frame) && p[27] == BlockByte(place)
            && Word(p, 28) == FecInfo(place.idx, place.dataShards, place.percentage)
            && p[1] == packet[1] && (forall i :: 4 <= i < 20 ==> p[i] == packet[i])
            && p[24] == packet[24] && p[25] == packet[25] && p[32..] == packet[32..]
  {
    var p := WithFecInfo(packet, number, frame, place);
    NumberOfBytes(p, number);
    WordOf(p, 20, frame);
    WordOf(p, 28, FecInfo(place.idx, place.dataShards, place.percentage));
    CorrectedBytes(packet, number, frame, place, p);
  }

  lemma CorrectedBytes(packet: Bytes, number: nat, frame: nat, place: Place, p: Bytes)
    requires |packet| >= 32 && p == WithFecInfo(packet, number, frame, place)
    ensures p[0] == 0x90 && p[1] == packet[1] && (forall i :: 4 <= i < 20 ==> p[i] == packet[i])
    ensures p[24] == packet[24] && p[25] == packet[25] && p[26] == 0x10
  {
  }

  lemma PlaceFits(idx: nat, dataShards: nat, percentage: nat, p: Bytes)
    requires |p| >= 32 && Word(p, 28) == FecInfo(idx, dataShards, percentage)
    requires idx < 0x400 && dataShards < 0x400 && percentage < 0x100
    ensures HasPlace(p, idx, dataShards, percentage)
  {
    FecInfoFields(idx, dataShards, percentage);
    InfoOfWord(FecInfo(idx, dataShards, percentage), idx, dataShards, percentage);
  }

  lemma InfoOfWord(info: nat, idx: nat, dataShards: nat, percentage: nat)
    requires info < 0x1_0000_0000 && FieldsAre(info, idx, dataShards, percentage)
    ensures info / 0x1000 % 0x400 == idx && info / 0x40_0000 == dataShards && info / 0x10 % 0x100 == percentage
  {
  }

  /** The packet has what the packet before error correction had, but for the fields of error correction. */
  ghost predicate KeepsData(p: Bytes, packet: Bytes)
  {
    && |p| >= 32 && |packet| >= 32 && p[1] == packet[1] && (forall j :: 4 <= j < 20 ==> p[j] == packet[j])
    && p[24] == packet[24] && p[25] == packet[25] && p[32..] == packet[32..]
  }

  lemma SourceOnWire(source: Bytes, number: nat, frame: nat, place: Place, k: nat, blocks: nat)
    requires |source| >= 32 && k < blocks && (blocks == 1 || blocks == 3) && place.block == k
    requires place.idx < 0x400 && place.dataShards < 0x400
    requires place.lastBlock == if blocks == 3 then 2 * 0x40 else 0
    ensures var p := WithFecInfo(source, number, frame, place);
            && HasHeader(p, number, frame) && InBlock(p, k, blocks) && KeepsData(p, source)
            && (place.percentage < 0x100 ==> HasPlace(p, place.idx, place.dataShards, place.percentage))
  {
    CorrectedHeader(source, number, frame, place);
    BlockByteIs(place);
    if place.percentage < 0x100 {
      PlaceFits(place.idx, place.dataShards, place.percentage, WithFecInfo(source, number, frame, place));
    }
  }

  /** A packet of a block with error correction; the first of them are the data packets. */
  lemma CodedPacketOnWire(c: Settings, number: nat, frame: nat, packets: seq<Bytes>, k: nat, blocks: nat, i: nat)
    requires c.Ok() && |packets| > 0 && Even(packets, DetermineSplit(c, |packets|).blockSize) && Fits(c, |packets|)
    requires i < DetermineSplit(c, |packets|).Total() && k < blocks && (blocks == 1 || blocks == 3)
    ensures var p := CodedPacket(c, number, frame, packets, k, if blocks == 3 then LAST_OF_THREE else 0, i);
            var percentage := DetermineSplit(c, |packets|).percentage;
            && HasHeader(p, number + i, frame) && InBlock(p, k, blocks)
            && (percentage < 0x100 ==> HasPlace(p, i, |packets|, percentage))
            && (i < |packets| ==> KeepsData(p, packets[i]))
  {
    var last := if blocks == 3 then LAST_OF_THREE else 0;
    SourceOnWire(Source(packets, Shards(c, packets), i), number + i, frame, PlaceIn(c, |packets|, i, k, last), k,
                 blocks);
  }

  // The packets of a frame

  /** The number of blocks for n data packets. */
  function Blocks(n: nat): nat
  {
    if n > 90 then 3 else 1
  }

  /** Where block k of n data packets starts; three blocks have a third of them each, rounded up. */
  function BlockStart(n: nat, k: nat): nat
  {
    if n > 90 then (if k * ((n + 2) / 3) <= n then k * ((n + 2) / 3) else n) else if k == 0 then 0 else n
  }

  lemma CutsAre(n: nat)
    requires n > 0
    ensures |Cuts(n)| == Blocks(n) + 1 && forall k :: 0 <= k < |Cuts(n)| ==> Cuts(n)[k] == BlockStart(n, k)
    ensures LastBlock(n) == if Blocks(n) == 3 then LAST_OF_THREE else 0
  {
  }

  /** n payloads of w bytes are as many as it takes for total bytes. */
  lemma PacketsUnique(total: nat, w: nat, n: nat)
    requires w > 0 && total > 0 && n > 0 && (n - 1) * w < total <= n * w
    ensures Packets(total, w) == n
  {
    PacketsCover(total, w);
    var m := Packets(total, w);
    if m < n {
      ProductGrows(m, n - 1 - m, w);
    } else if m > n {
      ProductGrows(n, m - 1 - n, w);
    }
  }

  /** Packet i of block k is in the frame, behind the blocks before. */
  lemma PacketInFrame(c: Settings, number: nat, frame: nat, packets: seq<Bytes>, k: nat, i: nat, sent: nat, p: Bytes)
    requires FrameInput(c, packets) && c.fecPercentage > 0 && k < |Cuts(|packets|)| - 1
    requires sent == |Sent(c, number, frame, packets, k)|
    requires var block := BlockOut(c, BlockNumber(c, number, frame, packets, k), frame, packets, k);
             i < |block| && p == block[i]
    ensures sent + i < |Corrected(c, number, frame, packets)| && Corrected(c, number, frame, packets)[sent + i] == p
  {
    BlockInFrame(c, number, frame, packets, k);
    ElementOfPrefix(Sent(c, number, frame, packets, k),
                    BlockOut(c, BlockNumber(c, number, frame, packets, k), frame, packets, k),
                    Corrected(c, number, frame, packets), i);
  }

  lemma ElementOfPrefix(a: seq<Bytes>, b: seq<Bytes>, all: seq<Bytes>, i: nat)
    requires a + b <= all && i < |b|
    ensures |a| + i < |all| && all[|a| + i] == b[i]
  {
    assert (a + b)[|a| + i] == b[i];
  }

  /** The data packets of a frame: their number and each of them. */
  lemma DataOfFrame(c: Settings, number: nat, frame: nat, inbuf: Bytes, isKey: bool, n: nat, nr: nat)
    requires c.Ok() && nr < n
    requires (n - 1) * (c.payloadSize - 16) < 8 + |inbuf| <= n * (c.payloadSize - 16)
    ensures var packets, s := FrameData(c, number, frame, inbuf, isKey), WithShortHeader(inbuf, c.Width(), isKey);
            && |packets| == Packets(|s|, c.Width()) == n
            && HasHeader(packets[nr], number + nr, frame)
            && IsData(packets[nr], number + nr, nr, n, PayloadAt(s, c.Width(), nr, c.addPadding))
            && packets[nr][27] == 0
  {
    var s := WithShortHeader(inbuf, c.Width(), isKey);
    PacketsUnique(|s|, c.Width(), n);
    DataPacketOnWire(c, number, frame, s, nr);
  }

  /** What is known of a packet with number number: packet i of a block of m from start on, of n in the frame. */
  ghost predicate OnWire(p: Bytes, number: nat, index: nat, frame: nat, k: nat, start: nat, m: nat, i: nat, n: nat,
                         percentage: nat, payload: Bytes)
  {
    && HasHeader(p, number, frame) && InBlock(p, k, Blocks(n))
    && (percentage < 0x100 ==> HasPlace(p, i, m, percentage))
    && (i < m ==> IsData(p, index, start + i, n, payload))
  }

  lemma KeptIsData(p: Bytes, packet: Bytes, index: nat, nr: nat, n: nat, payload: Bytes)
    requires KeepsData(p, packet) && IsData(packet, index, nr, n, payload)
    ensures IsData(p, index, nr, n, payload)
  {
  }

  lemma AlikeHeader(p: Bytes, a: nat, b: nat, frame: nat)
    requires HasHeader(p, a, frame) && a % NUMBERS == b % NUMBERS
    ensures HasHeader(p, b, frame)
  {
  }

  /** Packet p is packet i of a block of m of these data packets from start on. */
  ghost predicate Corrects(p: Bytes, number: nat, frame: nat, packets: seq<Bytes>, k: nat, start: nat, m: nat, i: nat,
                           percentage: nat)
  {
    && HasHeader(p, number, frame) && InBlock(p, k, Blocks(|packets|))
    && (percentage < 0x100 ==> HasPlace(p, i, m, percentage))
    && (i < m ==> start + i < |packets| && KeepsData(p, packets[start + i]))
  }

  lemma CorrectsOnWire(p: Bytes, number: nat, index: nat, frame: nat, packets: seq<Bytes>, k: nat, start: nat, m: nat,
                       i: nat, percentage: nat, payload: Bytes)
    requires Corrects(p, number, frame, packets, k, start, m, i, percentage)
    requires i < m ==> start + i < |packets| && IsData(packets[start + i], index, start + i, |packets|, payload)
    ensures OnWire(p, number, index, frame, k, start, m, i, |packets|, percentage, payload)
  {
    if i < m {
      KeptIsData(p, packets[start + i], index, start + i, |packets|, payload);
    }
  }

  lemma CodedOfBlock(c: Settings, next: nat, frame: nat, packets: seq<Bytes>, k: nat, m: nat, i: nat)
    requires FrameInput(c, packets) && k < |Cuts(|packets|)| - 1
    requires m == |BlockInput(packets, k)| && Fits(c, m) && i < DetermineSplit(c, m).Total()
    ensures DetermineSplit(c, m).blockSize == HEADER_SIZE + c.Width()
    ensures Even(BlockInput(packets, k), HEADER_SIZE + c.Width())
    ensures Corrects(CodedPacket(c, next, frame, BlockInput(packets, k), k, LastBlock(|packets|), i), next + i, frame,
                     packets, k, Cuts(|packets|)[k], m, i, DetermineSplit(c, m).percentage)
  {
    BlockInputIsEven(c, packets, k);
    CutsPartition(|packets|, k);
    CutsAre(|packets|);
    CodedPacketOnWire(c, next, frame, BlockInput(packets, k), k, Blocks(|packets|), i);
  }

  lemma BlockOutCorrects(c: Settings, next: nat, frame: nat, packets: seq<Bytes>, k: nat, start: nat, m: nat, i: nat,
                         percentage: nat, block: seq<Bytes>)
    requires FrameInput(c, packets) && k < |Cuts(|packets|)| - 1 && start == Cuts(|packets|)[k]
    requires m == |BlockInput(packets, k)| && Fits(c, m) && i < DetermineSplit(c, m).Total()
    requires percentage == DetermineSplit(c, m).percentage && block == BlockOut(c, next, frame, packets, k)
    ensures i < |block| && Corrects(block[i], next + i, frame, packets, k, start, m, i, percentage)
  {
    BlockInputIsEven(c, packets, k);
    BlockOutAt(c, next, frame, packets, k, i);
    CodedOfBlock(c, next, frame, packets, k, m, i);
  }

  lemma FromStart(p: Bytes, next: nat, number: nat, sent: nat, frame: nat, packets: seq<Bytes>, k: nat, start: nat,
                  m: nat, i: nat, percentage: nat)
    requires Corrects(p, next + i, frame, packets, k, start, m, i, percentage)
    requires next == (number + sent) % WORDS
    ensures Corrects(p, number + sent + i, frame, packets, k, start, m, i, percentage)
  {
    SameNumber(next, number + sent, i);
    AlikeHeader(p, next + i, number + sent + i, frame);
  }

  /** A packet of a block of data packets, with its number from the start of the frame. */
  lemma BlockPacketOnWire(c: Settings, number: nat, frame: nat, packets: seq<Bytes>, k: nat, start: nat, m: nat, i: nat,
                          next: nat, sent: nat, percentage: nat, block: seq<Bytes>)
    requires FrameInput(c, packets) && k < |Cuts(|packets|)| - 1 && start == Cuts(|packets|)[k]
    requires m == |BlockInput(packets, k)| && Fits(c, m) && i < DetermineSplit(c, m).Total()
    requires percentage == DetermineSplit(c, m).percentage && block == BlockOut(c, next, frame, packets, k)
    requires next == (number + sent) % WORDS
    ensures i < |block| && Corrects(block[i], number + sent + i, frame, packets, k, start, m, i, percentage)
  {
    BlockOutCorrects(c, next, frame, packets, k, start, m, i, percentage, block);
    FromStart(block[i], next, number, sent, frame, packets, k, start, m, i, percentage);
  }

  /** The payload of packet i of a block of m from start on; parity packets have none of their own. */
  function PayloadIn(c: Settings, inbuf: Bytes, isKey: bool, start: nat, m: nat, i: nat): Bytes
    requires c.Ok() && (i < m ==> start + i < Packets(8 + |inbuf|, c.Width()))
  {
    if i < m then PayloadAt(WithShortHeader(inbuf, c.Width(), isKey), c.Width(), start + i, c.addPadding) else []
  }

  /**
   Every packet of every frame with error correction, byte by byte, from the length of the frame
   and the properties alone: n data packets, of which block k has m from start on, and as much
   parity as the percentage asks for or is required, if that makes at most 255.
   */
  lemma PacketOnWire(c: Settings, number: nat, frame: nat, inbuf: Bytes, isKey: bool,
                     n: nat, k: nat, m: nat, parity: nat, percentage: nat, i: nat, sent: nat)
    requires 16 < c.payloadSize <= 10240 && c.fecPercentage > 0
    requires n > 0 && (n - 1) * (c.payloadSize - 16) < 8 + |inbuf| <= n * (c.payloadSize - 16)
    requires k < Blocks(n) && m == BlockStart(n, k + 1) - BlockStart(n, k) && m > 0
    requires parity >= c.minRequired && 100 * parity >= m * c.fecPercentage
    requires parity > c.minRequired ==> 100 * (parity - 1) < m * c.fecPercentage
    requires percentage == if 100 * (c.minRequired - 1) >= m * c.fecPercentage then 100 * parity / m
                           else c.fecPercentage
    requires m + parity <= 255 && i < m + parity
    requires k < |Cuts(|FrameData(c, number, frame, inbuf, isKey)|)|
    requires sent == |Sent(c, number, frame, FrameData(c, number, frame, inbuf, isKey), k)|
    ensures i < m ==> BlockStart(n, k) + i < n == Packets(8 + |inbuf|, c.Width())
    ensures sent + i < |FramePackets(c, number, frame, inbuf, isKey)|
    ensures OnWire(FramePackets(c, number, frame, inbuf, isKey)[sent + i], number + sent + i,
                   number + BlockStart(n, k) + i, frame, k, BlockStart(n, k), m, i, n, percentage,
                   PayloadIn(c, inbuf, isKey, BlockStart(n, k), m, i))
  {
    BlockOfFrame(c, number, frame, inbuf, isKey, n, k, m);
    var r := DetermineSplit(c, m);
    assert Fits(c, m) && r.Total() == m + parity && r.percentage == percentage by {
      SplitIs(c, m, parity, percentage);
    }
    FramePacketOnWire(c, number, frame, inbuf, isKey, FrameData(c, number, frame, inbuf, isKey), k, BlockStart(n, k),
                      m, i, number + BlockStart(n, k) + i, sent, percentage,
                      PayloadIn(c, inbuf, isKey, BlockStart(n, k), m, i), FramePackets(c, number, frame, inbuf, isKey));
  }

  /** The same, with what error correction computes for the block. */
  lemma FramePacketOnWire(c: Settings, number: nat, frame: nat, inbuf: Bytes, isKey: bool, packets: seq<Bytes>,
                          k: nat, start: nat, m: nat, i: nat, index: nat, sent: nat, percentage: nat, payload: Bytes,
                          out: seq<Bytes>)
    requires FrameInput(c, packets) && c.fecPercentage > 0 && k < |Cuts(|packets|)| - 1
    requires out == Corrected(c, number, frame, packets)
    requires packets == FrameData(c, number, frame, inbuf, isKey) && |packets| == Packets(8 + |inbuf|, c.Width())
    requires m == |BlockInput(packets, k)| && Fits(c, m) && i < DetermineSplit(c, m).Total()
    requires percentage == DetermineSplit(c, m).percentage && start == Cuts(|packets|)[k]
    requires sent == |Sent(c, number, frame, packets, k)|
    requires index == number + start + i && (i < m ==> start + i < |packets|)
    requires payload == PayloadIn(c, inbuf, isKey, start, m, i)
    ensures sent + i < |out|
    ensures OnWire(out[sent + i], number + sent + i, index, frame, k, start, m, i, |packets|, percentage, payload)
  {
    if i < m {
      DataInFrame(c, number, frame, inbuf, isKey, |packets|, start + i, index, packets, payload);
    }
    PacketOfBlock(c, number, frame, packets, k, start, m, i, index, sent, percentage, payload, out);
  }

  lemma DataInFrame(c: Settings, number: nat, frame: nat, inbuf: Bytes, isKey: bool, n: nat, nr: nat, index: nat,
                    packets: seq<Bytes>, payload: Bytes)
    requires c.Ok() && nr < n == Packets(8 + |inbuf|, c.Width()) && index == number + nr
    requires packets == FrameData(c, number, frame, inbuf, isKey)
    requires payload == PayloadAt(WithShortHeader(inbuf, c.Width(), isKey), c.Width(), nr, c.addPadding)
    ensures |packets| == n && IsData(packets[nr], index, nr, n, payload)
  {
    DataPacketOnWire(c, number, frame, WithShortHeader(inbuf, c.Width(), isKey), nr);
  }

  lemma PacketOfBlock(c: Settings, number: nat, frame: nat, packets: seq<Bytes>, k: nat, start: nat, m: nat, i: nat,
                      index: nat, sent: nat, percentage: nat, payload: Bytes, out: seq<Bytes>)
    requires FrameInput(c, packets) && c.fecPercentage > 0 && k < |Cuts(|packets|)| - 1
    requires out == Corrected(c, number, frame, packets)
    requires m == |BlockInput(packets, k)| && Fits(c, m) && i < DetermineSplit(c, m).Total()
    requires percentage == DetermineSplit(c, m).percentage && start == Cuts(|packets|)[k]
    requires sent == |Sent(c, number, frame, packets, k)|
    requires i < m ==> start + i < |packets| && IsData(packets[start + i], index, start + i, |packets|, payload)
    ensures sent + i < |out|
    ensures OnWire(out[sent + i], number + sent + i, index, frame, k, start, m, i, |packets|, percentage, payload)
  {
    var next := BlockNumber(c, number, frame, packets, k);
    var block := BlockOut(c, next, frame, packets, k);
    BlockPacketOnWire(c, number, frame, packets, k, start, m, i, next, sent, percentage, block);
    PacketInBlock(c, number, frame, packets, k, start, m, i, index, sent, percentage, payload, block, out);
  }

  lemma PacketInBlock(c: Settings, number: nat, frame: nat, packets: seq<Bytes>, k: nat, start: nat, m: nat, i: nat,
                      index: nat, sent: nat, percentage: nat, payload: Bytes, block: seq<Bytes>, out: seq<Bytes>)
    requires FrameInput(c, packets) && c.fecPercentage > 0 && k < |Cuts(|packets|)| - 1
    requires out == Corrected(c, number, frame, packets)
    requires sent == |Sent(c, number, frame, packets, k)|
    requires block == BlockOut(c, BlockNumber(c, number, frame, packets, k), frame, packets, k) && i < |block|
    requires Corrects(block[i], number + sent + i, frame, packets, k, start, m, i, percentage)
    requires i < m ==> start + i < |packets| && IsData(packets[start + i], index, start + i, |packets|, payload)
    ensures sent + i < |out|
    ensures OnWire(out[sent + i], number + sent + i, index, frame, k, start, m, i, |packets|, percentage, payload)
  {
    CorrectsOnWire(block[i], number + sent + i, index, frame, packets, k, start, m, i, percentage, payload);
    PacketInFrame(c, number, frame, packets, k, i, sent, block[i]);
  }

  // Frames without error correction, and blocks that are too large for it

  /** Data packet nr of n of a frame that starts with number number, without fields for error correction. */
  ghost predicate IsPlain(p: Bytes, number: nat, frame: nat, nr: nat, n: nat, payload: Bytes)
  {
    HasHeader(p, number + nr, frame) && IsData(p, number + nr, nr, n, payload) && p[27] == 0
  }

  lemma PlainData(c: Settings, number: nat, frame: nat, inbuf: Bytes, isKey: bool, n: nat, nr: nat, packets: seq<Bytes>)
    requires c.Ok() && nr < n == Packets(8 + |inbuf|, c.Width())
    requires packets == FrameData(c, number, frame, inbuf, isKey)
    ensures |packets| == n && IsPlain(packets[nr], number, frame, nr, n, PayloadIn(c, inbuf, isKey, 0, n, nr))
  {
    DataPacketOnWire(c, number, frame, WithShortHeader(inbuf, c.Width(), isKey), nr);
  }

  /** Without error correction the packets of a frame are its data packets. */
  lemma PlainPacketOnWire(c: Settings, number: nat, frame: nat, inbuf: Bytes, isKey: bool, n: nat, nr: nat)
    requires 16 < c.payloadSize <= 10240 && c.fecPercentage == 0
    requires nr < n && (n - 1) * (c.payloadSize - 16) < 8 + |inbuf| <= n * (c.payloadSize - 16)
    ensures var packets := FramePackets(c, number, frame, inbuf, isKey);
            && Packets(8 + |inbuf|, c.Width()) == |packets| == n
            && IsPlain(packets[nr], number, frame, nr, n, PayloadIn(c, inbuf, isKey, 0, n, nr))
  {
    PacketsUnique(8 + |inbuf|, c.Width(), n);
    PlainData(c, number, frame, inbuf, isKey, n, nr, FrameData(c, number, frame, inbuf, isKey));
  }

  /** With parity a block of more than 255 packets goes out as it was cut, with the numbers that it had then. */
  lemma SkippedPacketOnWire(c: Settings, number: nat, frame: nat, inbuf: Bytes, isKey: bool,
                            n: nat, k: nat, m: nat, parity: nat, i: nat, nr: nat, sent: nat)
    requires 16 < c.payloadSize <= 10240 && c.fecPercentage > 0
    requires n > 0 && (n - 1) * (c.payloadSize - 16) < 8 + |inbuf| <= n * (c.payloadSize - 16)
    requires k < Blocks(n) && m == BlockStart(n, k + 1) - BlockStart(n, k) && i < m && nr == BlockStart(n, k) + i
    requires parity >= c.minRequired && 100 * parity >= m * c.fecPercentage
    requires parity > c.minRequired ==> 100 * (parity - 1) < m * c.fecPercentage
    requires m + parity > 255
    requires k < |Cuts(|FrameData(c, number, frame, inbuf, isKey)|)|
    requires sent == |Sent(c, number, frame, FrameData(c, number, frame, inbuf, isKey), k)|
    ensures nr < n == Packets(8 + |inbuf|, c.Width())
    ensures sent + i < |FramePackets(c, number, frame, inbuf, isKey)|
    ensures IsPlain(FramePackets(c, number, frame, inbuf, isKey)[sent + i], number, frame, nr, n,
                    PayloadIn(c, inbuf, isKey, 0, n, nr))
  {
    BlockOfFrame(c, number, frame, inbuf, isKey, n, k, m);
    assert !Fits(c, m) by {
      DoesNotFit(c, m, parity);
    }
    SkippedIsPlain(c, number, frame, inbuf, isKey, FrameData(c, number, frame, inbuf, isKey), n, k, BlockStart(n, k),
                   m, i, nr, sent, PayloadIn(c, inbuf, isKey, 0, n, nr), FramePackets(c, number, frame, inbuf, isKey));
  }

  lemma SkippedIsPlain(c: Settings, number: nat, frame: nat, inbuf: Bytes, isKey: bool, packets: seq<Bytes>,
                       n: nat, k: nat, start: nat, m: nat, i: nat, nr: nat, sent: nat, payload: Bytes,
                       out: seq<Bytes>)
    requires FrameInput(c, packets) && c.fecPercentage > 0 && k < |Cuts(|packets|)| - 1
    requires packets == FrameData(c, number, frame, inbuf, isKey) && out == Corrected(c, number, frame, packets)
    requires |packets| == n == Packets(8 + |inbuf|, c.Width())
    requires m == |BlockInput(packets, k)| && !Fits(c, m) && i < m && start == Cuts(|packets|)[k]
    requires sent == |Sent(c, number, frame, packets, k)| && nr == start + i < n
    requires payload == PayloadIn(c, inbuf, isKey, 0, n, nr)
    ensures sent + i < |out| && IsPlain(out[sent + i], number, frame, nr, n, payload)
  {
    var p := packets[nr];
    assert IsPlain(p, number, frame, nr, n, payload) by {
      PlainData(c, number, frame, inbuf, isKey, n, nr, packets);
    }
    assert sent + i < |out| && out[sent + i] == p by {
      SkippedInFrame(c, number, frame, packets, k, start, m, i, sent, out);
    }
  }

  lemma DoesNotFit(c: Settings, m: nat, parity: nat)
    requires m > 0 && parity >= c.minRequired && 100 * parity >= m * c.fecPercentage
    requires parity > c.minRequired ==> 100 * (parity - 1) < m * c.fecPercentage
    requires m + parity > 255
    ensures !Fits(c, m)
  {
    SplitIs(c, m, parity,
            if 100 * (c.minRequired - 1) >= m * c.fecPercentage then 100 * parity / m else c.fecPercentage);
  }

  lemma SkippedInFrame(c: Settings, number: nat, frame: nat, packets: seq<Bytes>, k: nat, start: nat, m: nat, i: nat,
                       sent: nat, out: seq<Bytes>)
    requires FrameInput(c, packets) && c.fecPercentage > 0 && k < |Cuts(|packets|)| - 1
    requires out == Corrected(c, number, frame, packets)
    requires m == |BlockInput(packets, k)| && !Fits(c, m) && i < m && start == Cuts(|packets|)[k]
    requires sent == |Sent(c, number, frame, packets, k)|
    ensures sent + i < |out| && start + i < |packets| && out[sent + i] == packets[start + i]
  {
    var next := BlockNumber(c, number, frame, packets, k);
    BlockInputIsEven(c, packets, k);
    BlockOutAt(c, next, frame, packets, k, i);
    PacketInFrame(c, number, frame, packets, k, i, sent, packets[start + i]);
  }

  /**
   The payloads of a frame, joined: the short header with the kind of the frame and the length of the
   last payload, the frame itself, and zeroes up to full payloads when there is padding.
   */
  lemma FrameOnWire(c: Settings, inbuf: Bytes, isKey: bool, n: nat, last: nat)
    requires 16 < c.payloadSize <= 10240 && n > 0 && 0 < last <= c.payloadSize - 16
    requires (n - 1) * (c.payloadSize - 16) + last == 8 + |inbuf|
    ensures var ps := Payloads(WithShortHeader(inbuf, c.Width(), isKey), c.Width(), c.addPadding);
            && |ps| == Packets(8 + |inbuf|, c.Width()) == n && |Join(ps)| >= 8 + |inbuf|
            && (forall nr :: 0 <= nr < n ==> ps[nr] == PayloadIn(c, inbuf, isKey, 0, n, nr))
            && Join(ps)[..8 + |inbuf|]
               == [1, 0, 0, if isKey then 2 else 1, last % 0x100, last / 0x100, 0, 0] + inbuf
            && (forall j :: 8 + |inbuf| <= j < |Join(ps)| ==> Join(ps)[j] == 0)
            && |Join(ps)| == if c.addPadding then n * (c.payloadSize - 16) else 8 + |inbuf|
  {
    var s := WithShortHeader(inbuf, c.Width(), isKey);
    JoinedPayloads(s, c.Width(), c.addPadding, n, last);
    StartIs(inbuf, c.Width(), isKey, n, last);
    assert Join(Payloads(s, c.Width(), c.addPadding))[..|s|] == s;
  }

  lemma StartIs(inbuf: Bytes, w: nat, isKey: bool, n: nat, last: nat)
    requires n > 0 && 0 < last <= w < LENGTHS && (n - 1) * w + last == 8 + |inbuf|
    ensures WithShortHeader(inbuf, w, isKey)
         == [1, 0, 0, if isKey then 2 else 1, last % 0x100, last / 0x100, 0, 0] + inbuf
  {
    assert (n - 1) * w + w == n * w;
    PacketsUnique(8 + |inbuf|, w, n);
    LastLengthIs(8 + |inbuf|, w);
    LastPayloadLenIs(8 + |inbuf|, w);
  }

  lemma JoinedPayloads(s: Bytes, w: nat, addPadding: bool, n: nat, last: nat)
    requires n > 0 && 0 < last <= w && (n - 1) * w + last == |s|
    ensures var ps := Payloads(s, w, addPadding);
            && |ps| == Packets(|s|, w) == n && s <= Join(ps)
            && (forall j :: |s| <= j < |Join(ps)| ==> Join(ps)[j] == 0)
            && |Join(ps)| == if addPadding then n * w else |s|
  {
    assert (n - 1) * w + w == n * w;
    PacketsUnique(|s|, w, n);
    JoinedLength(s, w, addPadding, n, (n - 1) * w);
  }

  lemma JoinedLength(s: Bytes, w: nat, addPadding: bool, n: nat, begin: nat)
    requires |s| > 0 && w > 0 && n == Packets(|s|, w) && n > 0 && begin == (n - 1) * w && |s| <= begin + w
    ensures var ps := Payloads(s, w, addPadding);
            && s <= Join(ps) && (forall j :: |s| <= j < |Join(ps)| ==> Join(ps)[j] == 0)
            && |Join(ps)| == if addPadding then begin + w else |s|
  {
    var ps := Payloads(s, w, addPadding);
    JoinAll(s, w, addPadding);
    JoinOfPayloads(s, w, addPadding, n - 1, begin);
    assert ps[n - 1] == PayloadAt(s, w, n - 1, addPadding) == Payload(s, w, begin, addPadding);
    LastPayload(s, w, begin, addPadding);
    EndOfJoin(Join(ps), Join(ps[..n - 1]), ps[n - 1], |s|);
  }

  lemma EndOfJoin(whole: Bytes, before: Bytes, p: Bytes, n: nat)
    requires whole == before + p && |before| <= n
    requires forall j :: n - |before| <= j < |p| ==> p[j] == 0
    ensures forall j :: n <= j < |whole| ==> whole[j] == 0
  {
    forall j | n <= j < |whole|
      ensures whole[j] == 0
    {
      assert whole[j] == p[j - |before|];
    }
  }

  lemma LastPayload(s: Bytes, w: nat, begin: nat, addPadding: bool)
    requires begin <= |s| <= begin + w
    ensures var p := Payload(s, w, begin, addPadding);
            && |p| == (if addPadding then w else |s| - begin)
            && forall j :: |s| - begin <= j < |p| ==> p[j] == 0
  {
  }

  lemma BlockOfFrame(c: Settings, number: nat, frame: nat, inbuf: Bytes, isKey: bool, n: nat, k: nat, m: nat)
    requires c.Ok() && k < Blocks(n) && n > 0 && m == BlockStart(n, k + 1) - BlockStart(n, k)
    requires (n - 1) * (c.payloadSize - 16) < 8 + |inbuf| <= n * (c.payloadSize - 16)
    ensures var packets := FrameData(c, number, frame, inbuf, isKey);
            && |packets| == n && k < |Cuts(n)| - 1 && Cuts(n)[k] == BlockStart(n, k) && |BlockInput(packets, k)| == m
            && Packets(8 + |inbuf|, c.Width()) == n && BlockStart(n, k) + m <= n
  {
    DataOfFrame(c, number, frame, inbuf, isKey, n, 0);
    CutsAre(n);
    CutsPartition(n, k);
  }
}
