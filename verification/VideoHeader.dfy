/** The headers of video packets. */
module VideoHeader {
  import opened Bits
  import opened Vectors
  import opened WireFormat
  import opened PacketNumbers

  const FLAG_EXTENSION := 0x10
  const FLAG_CONTAINS_PIC_DATA := 1
  const FLAG_EOF := 2
  const FLAG_SOF := 4

  /** Shard number, number of data shards and percentage, packed into one word. */
  function FecInfo(idx: nat, dataShards: nat, percentage: nat): (info: nat)
    ensures info < WORDS
  {
    OrBits(OrBits(idx * 0x1000, dataShards * 0x40_0000), percentage * 0x10) % WORDS
  }

  // What the receiver reads from the word

  function InfoIndex(info: nat): nat
  {
    info / 0x1000 % 0x400
  }

  function InfoDataShards(info: nat): nat
  {
    info / 0x40_0000 % 0x400
  }

  function InfoPercentage(info: nat): nat
  {
    info / 0x10 % 0x100
  }

  predicate FieldsAre(info: nat, idx: nat, dataShards: nat, percentage: nat)
  {
    InfoIndex(info) == idx && InfoDataShards(info) == dataShards && InfoPercentage(info) == percentage
  }

  lemma FecInfoIs(idx: nat, dataShards: nat, percentage: nat)
    requires idx < 0x400 && dataShards < 0x400 && percentage < 0x100
    ensures FecInfo(idx, dataShards, percentage) == 0x10 * percentage + 0x1000 * idx + 0x40_0000 * dataShards
  {
    Powers();
    OrThree(idx * 0x1000, dataShards, 0x40_0000, percentage * 0x10, 0x1000, idx + 0x400 * dataShards);
  }

  lemma OrThree(middle: nat, top: nat, m: nat, low: nat, n: nat, above: nat)
    requires PowerOfTwo(m) && PowerOfTwo(n) && middle < m && low < n && middle + top * m == above * n
    ensures OrBits(OrBits(middle, top * m), low) == low + middle + top * m
  {
    OrSum(middle, top * m, top, m);
    OrSum(low, middle + top * m, above, n);
  }

  lemma Powers()
    ensures PowerOfTwo(0x40) && PowerOfTwo(0x1000) && PowerOfTwo(0x40_0000)
  {
    assert PowerOfTwo(0x4_0000);
  }

  /** The three fields come back exactly when ten, ten and eight bits hold them. */
  lemma FecInfoFields(idx: nat, dataShards: nat, percentage: nat)
    ensures FieldsAre(FecInfo(idx, dataShards, percentage), idx, dataShards, percentage)
       <==> idx < 0x400 && dataShards < 0x400 && percentage < 0x100
  {
    var info := FecInfo(idx, dataShards, percentage);
    if idx < 0x400 && dataShards < 0x400 && percentage < 0x100 {
      FecInfoIs(idx, dataShards, percentage);
      FieldsOfSum(info, idx, dataShards, percentage);
    } else {
      FieldsAreSmall(info, idx, dataShards, percentage);
    }
  }

  /** A percentage of 300 for one data packet does not fit. */
  lemma LargePercentageIsNotRead(idx: nat)
    ensures !FieldsAre(FecInfo(idx, 1, 300), idx, 1, 300)
  {
    FecInfoFields(idx, 1, 300);
  }

  lemma FieldsOfSum(info: nat, idx: nat, dataShards: nat, percentage: nat)
    requires idx < 0x400 && dataShards < 0x400 && percentage < 0x100
    requires info == 0x10 * percentage + 0x1000 * idx + 0x40_0000 * dataShards
    ensures FieldsAre(info, idx, dataShards, percentage)
  {
    assert info / 0x10 == percentage + 0x100 * (idx + 0x400 * dataShards);
    assert info / 0x1000 == idx + 0x400 * dataShards;
    assert info / 0x40_0000 == dataShards;
  }

  lemma FieldsAreSmall(info: nat, idx: nat, dataShards: nat, percentage: nat)
    ensures FieldsAre(info, idx, dataShards, percentage) ==> idx < 0x400 && dataShards < 0x400 && percentage < 0x100
  {
  }

  function Flags(nr: nat, total: nat): u8
  {
    FLAG_CONTAINS_PIC_DATA + (if nr == 0 then FLAG_SOF else 0) + if nr == total - 1 then FLAG_EOF else 0
  }

  /** The header of data packet nr of total. */
  function RtpVideoHeader(number: nat, frame: nat, nr: nat, total: nat): (h: Bytes)
    ensures |h| == HEADER_SIZE && h[2..4] == Big16(number)
    ensures h[16..20] == Little32(number * 0x100)
  {
    RtpHeader(0x80 + FLAG_EXTENSION, 0, number, 0) + Zeros(4)
      + Little32(number * 0x100) + Little32(frame) + [Flags(nr, total), 0, 0x10, 0] + Little32(FecInfo(nr, total, 0))
  }

  /** Where a packet stands among the shards of its block. */
  datatype Place = Place(idx: nat, dataShards: nat, percentage: nat, block: nat, lastBlock: nat)

  function BlockByte(p: Place): u8
  {
    OrBits(p.block * 0x10, p.lastBlock) % 0x100
  }

  /** The packet with the fields that error correction sets. */
  function WithFecInfo(packet: Bytes, number: nat, frame: nat, p: Place): (r: Bytes)
    requires |packet| >= HEADER_SIZE
    ensures |r| == |packet| && r[HEADER_SIZE..] == packet[HEADER_SIZE..]
    ensures r[2..4] == Big16(number) && r[20..24] == Little32(frame)
    ensures r[28..32] == Little32(FecInfo(p.idx, p.dataShards, p.percentage)) && r[27] == BlockByte(p)
    ensures r[16..20] == packet[16..20] && r[24] == packet[24]
  {
    [0x80 + FLAG_EXTENSION, packet[1]] + Big16(number) + packet[4..20] + Little32(frame) + packet[24..26]
      + [0x10, BlockByte(p)] + Little32(FecInfo(p.idx, p.dataShards, p.percentage)) + packet[HEADER_SIZE..]
  }

  lemma NumberOfHeader(number: nat, frame: nat, nr: nat, total: nat, payload: Bytes)
    ensures Number(RtpVideoHeader(number, frame, nr, total) + payload) == number % NUMBERS
  {
    var h := RtpVideoHeader(number, frame, nr, total);
    assert (h + payload)[2..4] == h[2..4];
    ReadBig16Of(h + payload, 2, number);
  }

  lemma NumberWithFecInfo(packet: Bytes, number: nat, frame: nat, p: Place)
    requires |packet| >= HEADER_SIZE
    ensures Number(WithFecInfo(packet, number, frame, p)) == number % NUMBERS
    ensures WithFecInfo(packet, number, frame, p)[HEADER_SIZE..] == packet[HEADER_SIZE..]
  {
    ReadBig16Of(WithFecInfo(packet, number, frame, p), 2, number);
  }

  /** The receiver reads back where the packet stands. */
  lemma PlaceIsRead(packet: Bytes, number: nat, frame: nat, p: Place)
    requires |packet| >= HEADER_SIZE && p.idx < 0x400 && p.dataShards < 0x400 && p.percentage < 0x100
    requires p.block < 4 && (p.lastBlock == 0 || p.lastBlock == 0x80)
    ensures FieldsAre(ReadLittle32(WithFecInfo(packet, number, frame, p), 28), p.idx, p.dataShards, p.percentage)
    ensures BlockIs(WithFecInfo(packet, number, frame, p)[27], p.block, p.lastBlock)
  {
    InfoIsRead(WithFecInfo(packet, number, frame, p), FecInfo(p.idx, p.dataShards, p.percentage));
    FecInfoFields(p.idx, p.dataShards, p.percentage);
    BlockByteIs(p);
    BlockOfSum(BlockByte(p), p.block, p.lastBlock);
  }

  lemma InfoIsRead(r: Bytes, info: nat)
    requires |r| >= HEADER_SIZE && info < WORDS && r[28..32] == Little32(info)
    ensures ReadLittle32(r, 28) == info
  {
    ReadLittle32Of(r, 28, info);
  }

  /** What the receiver reads from the byte for the block. */
  predicate BlockIs(b: u8, block: nat, lastBlock: nat)
  {
    b / 0x10 % 4 == block && b / 0x40 * 0x40 == lastBlock
  }

  lemma BlockOfSum(b: u8, block: nat, lastBlock: nat)
    requires block < 4 && (lastBlock == 0 || lastBlock == 0x80) && b == block * 0x10 + lastBlock
    ensures BlockIs(b, block, lastBlock)
  {
  }

  lemma BlockBits(sum: nat, last: nat, hi: nat)
    requires sum < 0x40 && last == hi * 0x40
    ensures OrBits(sum, last) == sum + last
  {
    Powers();
    OrSum(sum, last, hi, 0x40);
  }

  lemma SmallByte(or: nat, sum: nat, last: nat)
    requires or == sum + last && sum < 0x40 && last <= 0xC0
    ensures or % 0x100 == sum + last
  {
  }

  lemma BlockByteIs(p: Place)
    requires p.block < 4 && (p.lastBlock == 0 || p.lastBlock == 0x80)
    ensures BlockByte(p) == p.block * 0x10 + p.lastBlock
  {
    var sum, last := p.block * 0x10, p.lastBlock;
    BlockBits(sum, last, if last == 0 then 0 else 2);
    SmallByte(OrBits(sum, last), sum, last);
  }
}
