/** Audio packets in groups of four, each followed by two parity packets. */
module Audio {
  import opened Bits
  import opened Gf256
  import opened Vectors
  import opened Memory
  import opened Oblas
  import opened Shards
  import opened ErasureCode
  import opened ReedSolomon
  import opened WireFormat
  import opened AudioMatrix
  import FlatRows

  const RTP_HEADER_SIZE := 12
  const FEC_HEADER_SIZE := 24
  const NUMBERS := 0x1_0000

  function DataHeader(number: nat, duration: nat): (h: Bytes)
    ensures |h| == RTP_HEADER_SIZE && h[2..4] == Big16(number)
  {
    RtpHeader(0x80, 97, number, number * duration)
  }

  /** The header of the parity packet idx that follows data packet number. */
  function FecHeader(number: nat, duration: nat, idx: u8): (h: Bytes)
    requires number >= DATA_SHARDS - 1
    ensures |h| == FEC_HEADER_SIZE
    ensures h[12] == idx && h[14..16] == Big16(number - (DATA_SHARDS - 1))
  {
    var first := number - (DATA_SHARDS - 1);
    RtpHeader(0x80, 127, number + idx, 0) + [idx, 97] + Big16(first) + Big32(first * duration) + Big32(0)
  }

  /** The packets of one call: a data packet, and the parity packets that follow it. */
  datatype Batch = Batch(data: Bytes, parity: seq<Bytes>) {
    function Packets(): seq<Bytes>
    {
      [data] + parity
    }
  }

  /** Call n completes a group of four. */
  predicate EndsGroup(n: nat)
    ensures EndsGroup(n) ==> n >= DATA_SHARDS - 1
  {
    (n + 1) % DATA_SHARDS == 0
  }

  /** The number of the first packet of the group that ends with call n. */
  function FirstOfGroup(n: nat): (first: nat)
    requires n >= DATA_SHARDS - 1
  {
    (n - (DATA_SHARDS - 1)) % NUMBERS
  }

  /** The four data packets of the group that ends with call n. */
  ghost function Group(batches: seq<Batch>, n: nat): (g: seq<Bytes>)
    requires DATA_SHARDS - 1 <= n < |batches|
    ensures |g| == DATA_SHARDS
    ensures forall k :: 0 <= k < DATA_SHARDS ==> g[k] == batches[n - (DATA_SHARDS - 1) + k].data
  {
    seq(DATA_SHARDS, k requires 0 <= k < DATA_SHARDS => batches[n - (DATA_SHARDS - 1) + k].data)
  }

  /** No packet of the group is shorter than len. */
  ghost predicate Covered(g: seq<Bytes>, len: nat)
  {
    RTP_HEADER_SIZE <= len && forall k :: 0 <= k < |g| ==> len <= |g[k]|
  }

  /** The first len bytes of the packets. */
  ghost function Heads(g: seq<Bytes>, len: nat): (xs: seq<Row>)
    requires Covered(g, len)
    ensures |xs| == |g| && Uniform(xs, len)
  {
    seq(|g|, k requires 0 <= k < |g| => g[k][..len])
  }

  /** The payloads of packets of len bytes. */
  ghost function Payloads(g: seq<Bytes>, len: nat): (xs: seq<Row>)
    requires Covered(g, len)
    ensures |xs| == |g| && Uniform(xs, len - RTP_HEADER_SIZE)
  {
    Columns(Heads(g, len), RTP_HEADER_SIZE)
  }

  /** The packet carries parity j of the payloads of group g, whose first packet is number first. */
  ghost predicate IsParity(packet: Bytes, j: nat, g: seq<Bytes>, first: nat)
    requires j < FEC_SHARDS && |g| == DATA_SHARDS
  {
    var len := |g[DATA_SHARDS - 1]|;
    && RTP_HEADER_SIZE <= len && |packet| == FEC_HEADER_SIZE - RTP_HEADER_SIZE + len
    && packet[12] == j && ReadBig16(packet, 14) == first
    && (Covered(g, len) ==>
          packet[FEC_HEADER_SIZE..] == Combine(Parity()[j], Payloads(g, len), len - RTP_HEADER_SIZE))
  }

  /** The parity packets are those of group g. */
  ghost predicate Coded(g: seq<Bytes>, parity: seq<Bytes>, first: nat)
  {
    && |g| == DATA_SHARDS && |parity| == FEC_SHARDS
    && IsParity(parity[0], 0, g, first) && IsParity(parity[1], 1, g, first)
  }

  /** What call n emits: one data packet, and after each fourth one the parity of the last four. */
  ghost predicate CallIs(batches: seq<Batch>, n: nat)
    requires n < |batches|
  {
    var b := batches[n];
    && RTP_HEADER_SIZE <= |b.data| <= MAX_BLOCK_SIZE && Number(b.data) == n % NUMBERS
    && if EndsGroup(n) then
         Coded(Group(batches, n), b.parity, FirstOfGroup(n))
       else b.parity == []
  }

  ghost predicate History(batches: seq<Batch>)
  {
    forall n :: 0 <= n < |batches| ==> CallIs(batches, n)
  }

  lemma EarlierCallIs(batches: seq<Batch>, b: Batch, n: nat)
    requires n < |batches| && CallIs(batches, n)
    ensures CallIs(batches + [b], n)
  {
    if EndsGroup(n) {
      assert Group(batches + [b], n) == Group(batches, n);
    }
  }

  lemma HistoryGrows(batches: seq<Batch>, b: Batch)
    requires History(batches) && CallIs(batches + [b], |batches|)
    ensures History(batches + [b])
  {
    forall n | 0 <= n < |batches|
      ensures CallIs(batches + [b], n)
    {
      EarlierCallIs(batches, b, n);
    }
  }

  // The packets byte by byte

  /** What came in with a call, and the properties that were in force then. */
  datatype Call = Call(inbuf: Bytes, encrypted: bool, duration: nat)

  /** The packet as it is on the wire: version, type, number, time, source, and then the payload. */
  ghost predicate IsDataPacket(p: Bytes, number: nat, duration: nat, payload: Bytes)
  {
    && |p| == 12 + |payload| && p[0] == 0x80 && p[1] == 97
    && p[2] as int * 256 + p[3] as int == number
    && ((p[4] as int * 256 + p[5] as int) * 256 + p[6] as int) * 256 + p[7] as int == number * duration % 0x1_0000_0000
    && p[8] == p[9] == p[10] == p[11] == 0 && p[12..] == payload
  }

  /** The header of parity packet j as it is on the wire, after data packet number. */
  ghost predicate IsParityHeader(p: Bytes, number: nat, duration: nat, j: nat)
  {
    && |p| >= 24 && number >= 3 && p[0] == 0x80 && p[1] == 127
    && p[2] as int * 256 + p[3] as int == (number + j) % 0x1_0000
    && p[4] == p[5] == p[6] == p[7] == p[8] == p[9] == p[10] == p[11] == 0
    && p[12] == j && p[13] == 97 && p[14] as int * 256 + p[15] as int == number - 3
    && ((p[16] as int * 256 + p[17] as int) * 256 + p[18] as int) * 256 + p[19] as int
       == (number - 3) * duration % 0x1_0000_0000
    && p[20] == p[21] == p[22] == p[23] == 0
  }

  /** The payload goes out encrypted under the number of its packet, or as it is. */
  ghost function Sealed(c: Call, number: nat, cipher: (Bytes, nat) -> Bytes): Bytes
  {
    if c.encrypted then cipher(c.inbuf, number) else c.inbuf
  }

  ghost predicate SentAs(batches: seq<Batch>, calls: seq<Call>, cipher: (Bytes, nat) -> Bytes, n: nat)
    requires n < |batches| == |calls|
  {
    IsDataPacket(batches[n].data, n % 0x1_0000, calls[n].duration, Sealed(calls[n], n % 0x1_0000, cipher))
  }

  /** Every call sent its buffer. */
  ghost predicate AllSent(batches: seq<Batch>, calls: seq<Call>, cipher: (Bytes, nat) -> Bytes)
  {
    |batches| == |calls| && forall n :: 0 <= n < |calls| ==> SentAs(batches, calls, cipher, n)
  }

  lemma OneMoreSent(batches: seq<Batch>, calls: seq<Call>, cipher: (Bytes, nat) -> Bytes, b: Batch, c: Call)
    requires AllSent(batches, calls, cipher)
    requires IsDataPacket(b.data, |calls| % 0x1_0000, c.duration, Sealed(c, |calls| % 0x1_0000, cipher))
    ensures AllSent(batches + [b], calls + [c], cipher)
  {
    forall n | 0 <= n < |calls| + 1
      ensures SentAs(batches + [b], calls + [c], cipher, n)
    {
      if n < |calls| {
        assert SentAs(batches, calls, cipher, n);
      }
    }
  }

  /** With the number in the header the receiver opens every packet that was sent encrypted, and gets the buffer. */
  lemma EveryPacketOpens(batches: seq<Batch>, calls: seq<Call>, cipher: (Bytes, nat) -> Bytes,
                         decipher: (Bytes, nat) -> Bytes, n: nat)
    requires AllSent(batches, calls, cipher) && n < |calls|
    requires forall x, k :: decipher(cipher(x, k), k) == x
    ensures |batches[n].data| >= 12
    ensures var p := batches[n].data;
            var number := p[2] as int * 256 + p[3] as int;
            calls[n].inbuf == if calls[n].encrypted then decipher(p[12..], number) else p[12..]
  {
    assert SentAs(batches, calls, cipher, n);
  }

  lemma BigDigits(n: nat, p: Bytes, at: nat)
    requires at + 4 <= |p| && p[at..at + 4] == Big32(n)
    ensures ((p[at] as int * 256 + p[at + 1] as int) * 256 + p[at + 2] as int) * 256 + p[at + 3] as int
         == n % 0x1_0000_0000
  {
    SliceAt(p, at, Big32(n));
    LittleDigits(n);
  }

  lemma DataPacketBytes(number: nat, duration: nat, payload: Bytes)
    requires number < 0x1_0000
    ensures IsDataPacket(DataHeader(number, duration) + payload, number, duration, payload)
  {
    var p := DataHeader(number, duration) + payload;
    assert p[4..8] == Big32(number * duration);
    BigDigits(number * duration, p, 4);
  }

  lemma FecHeaderIs(h: Bytes, number: nat, duration: nat, j: u8, first: nat, time: nat)
    requires number == first + 3 && time == first * duration && h == FecHeader(number, duration, j)
    ensures h
         == [0x80, 127, (number + j) / 256 % 256, (number + j) % 256, 0, 0, 0, 0, 0, 0, 0, 0, j, 97,
             first / 256 % 256, first % 256] + Big32(time) + [0, 0, 0, 0]
  {
  }

  lemma ParityHeaderBytes(p: Bytes, h: Bytes, number: nat, duration: nat, j: u8, first: nat)
    requires number == first + 3 && number < NUMBERS && h == FecHeader(number, duration, j) && h <= p
    ensures IsParityHeader(p, number, duration, j)
  {
    var time := first * duration;
    FecHeaderIs(h, number, duration, j, first, time);
    ParityBytesAre(p, h, number, time, j, duration);
  }

  lemma ParityBytesAre(p: Bytes, h: Bytes, number: nat, time: nat, j: u8, duration: nat)
    requires 3 <= number < 0x1_0000 && time == (number - 3) * duration && h <= p
    requires h == [0x80, 127, (number + j) / 256 % 256, (number + j) % 256, 0, 0, 0, 0, 0, 0, 0, 0, j, 97,
                   (number - 3) / 256 % 256, (number - 3) % 256] + Big32(time) + [0, 0, 0, 0]
    ensures IsParityHeader(p, number, duration, j)
  {
    assert p[16..20] == Big32(time);
    BigDigits(time, p, 16);
    TwoDigits(number + j);
  }

  // What the receiver gets out of a group

  /** The advertised first number places every data packet of the group, also where numbers wrap. */
  lemma PlacesInGroup(batches: seq<Batch>, n: nat, k: nat)
    requires History(batches) && n < |batches| && EndsGroup(n) && k < DATA_SHARDS
    ensures Coded(Group(batches, n), batches[n].parity, FirstOfGroup(n))
    ensures |Group(batches, n)[k]| >= RTP_HEADER_SIZE
    ensures (Number(Group(batches, n)[k]) + NUMBERS - FirstOfGroup(n)) % NUMBERS == k
  {
    assert CallIs(batches, n) && CallIs(batches, n - (DATA_SHARDS - 1) + k);
    Distance(n - (DATA_SHARDS - 1), k);
  }

  lemma Distance(first: nat, k: nat)
    requires k < NUMBERS
    ensures ((first + k) % NUMBERS + NUMBERS - first % NUMBERS) % NUMBERS == k
  {
    var q, r := first / NUMBERS, first % NUMBERS;
    assert first == NUMBERS * q + r;
    assert (first + k) % NUMBERS == if r + k < NUMBERS then r + k else r + k - NUMBERS;
  }

  /** What was received of the group: the payloads of its data packets, then those of its parity. */
  ghost predicate Received(received: seq<Row>, xs: seq<Row>, parity: seq<Bytes>, marks: seq<u8>)
    requires |xs| == DATA_SHARDS && |parity| == FEC_SHARDS && |marks| >= TOTAL_SHARDS
    requires |parity[0]| >= FEC_HEADER_SIZE && |parity[1]| >= FEC_HEADER_SIZE
  {
    && |received| == TOTAL_SHARDS && Uniform(received, |xs[0]|)
    && (forall k :: 0 <= k < DATA_SHARDS && marks[k] == 0 ==> received[k] == xs[k])
    && (marks[DATA_SHARDS] == 0 ==> received[DATA_SHARDS] == parity[0][FEC_HEADER_SIZE..])
    && (marks[DATA_SHARDS + 1] == 0 ==> received[DATA_SHARDS + 1] == parity[1][FEC_HEADER_SIZE..])
  }

  /**
   Any two of the six packets of a group can be lost: decoding gives back the payloads, as far as
   the last packet of the group reaches, which is all of them when the packets are of one size.
   */
  lemma GroupRecovers(g: seq<Bytes>, parity: seq<Bytes>, first: nat, marks: seq<u8>, received: seq<Row>, len: nat)
    requires Coded(g, parity, first) && len == |g[DATA_SHARDS - 1]| && Covered(g, len)
    requires |marks| >= TOTAL_SHARDS && |Indices(marks, 0, TOTAL_SHARDS, true)| <= FEC_SHARDS
    requires Received(received, Payloads(g, len), parity, marks)
    ensures EnoughSurvive(marks, DATA_SHARDS, FEC_SHARDS)
    ensures Repaired(Parity(), marks, received, DATA_SHARDS, len - RTP_HEADER_SIZE)[..DATA_SHARDS] == Payloads(g, len)
  {
    assert EnoughSurvive(marks, DATA_SHARDS, FEC_SHARDS) by {
      LossesAllowed(marks, DATA_SHARDS, FEC_SHARDS);
    }
    ReceivedAgrees(g, parity, first, marks, received, len);
    ShardsRecover(marks, received, Payloads(g, len), len - RTP_HEADER_SIZE);
  }

  lemma ShardsRecover(marks: seq<u8>, received: seq<Row>, xs: seq<Row>, w: nat)
    requires |xs| == DATA_SHARDS && |received| == TOTAL_SHARDS <= |marks| && Uniform(xs, w) && Uniform(received, w)
    requires Agrees(Parity(), marks, received, xs, w) && EnoughSurvive(marks, DATA_SHARDS, FEC_SHARDS)
    ensures Repaired(Parity(), marks, received, DATA_SHARDS, w)[..DATA_SHARDS] == xs
  {
    AudioCorrectsAllLosses();
    RepairRestoresData(Parity(), marks, received, xs, w);
    assert (xs + received[DATA_SHARDS..])[..DATA_SHARDS] == xs;
  }

  lemma ReceivedAgrees(g: seq<Bytes>, parity: seq<Bytes>, first: nat, marks: seq<u8>, received: seq<Row>, len: nat)
    requires Coded(g, parity, first) && len == |g[DATA_SHARDS - 1]| && Covered(g, len) && |marks| >= TOTAL_SHARDS
    requires Received(received, Payloads(g, len), parity, marks)
    ensures Agrees(Parity(), marks, received, Payloads(g, len), len - RTP_HEADER_SIZE)
  {
  }

  /** What the parity bytes of a group are, with the eight coefficients. */
  lemma ParityByteIs(g: seq<Bytes>, parity: seq<Bytes>, first: nat, len: nat, t: nat)
    requires Coded(g, parity, first) && len == |g[3]| && Covered(g, len) && 12 + t < len
    ensures |parity[0]| > 24 + t && |parity[1]| > 24 + t
    ensures parity[0][24 + t] == Sum(Mul(0x77, g[0][12 + t]), Mul(0x40, g[1][12 + t]),
                                     Mul(0x38, g[2][12 + t]), Mul(0x0e, g[3][12 + t]))
    ensures parity[1][24 + t] == Sum(Mul(0xc7, g[0][12 + t]), Mul(0xa7, g[1][12 + t]),
                                     Mul(0x0d, g[2][12 + t]), Mul(0x6c, g[3][12 + t]))
  {
    var xs := Payloads(g, len);
    DotOfFour(Parity()[0], xs, t);
    DotOfFour(Parity()[1], xs, t);
    assert parity[0][24 + t] == parity[0][FEC_HEADER_SIZE..][t];
    assert parity[1][24 + t] == parity[1][FEC_HEADER_SIZE..][t];
    assert xs[0][t] == g[0][12 + t] && xs[1][t] == g[1][12 + t];
    assert xs[2][t] == g[2][12 + t] && xs[3][t] == g[3][12 + t];
  }

  ghost function Sum(a: u8, b: u8, c: u8, d: u8): u8
  {
    Add(Add(Add(a, b), c), d)
  }

  lemma DotOfFour(row: Row, xs: seq<Row>, t: nat)
    requires |row| == |xs| == 4 && forall k :: 0 <= k < 4 ==> t < |xs[k]|
    ensures Dot(row, xs, 4, t)
         == Sum(Mul(row[0], xs[0][t]), Mul(row[1], xs[1][t]), Mul(row[2], xs[2][t]), Mul(row[3], xs[3][t]))
  {
    assert Dot(row, xs, 0, t) == 0;
    assert Dot(row, xs, 1, t) == Add(0, Mul(row[0], xs[0][t]));
    AddZero(Mul(row[0], xs[0][t]));
    assert Dot(row, xs, 2, t) == Add(Dot(row, xs, 1, t), Mul(row[1], xs[1][t]));
    assert Dot(row, xs, 3, t) == Add(Dot(row, xs, 2, t), Mul(row[2], xs[2][t]));
  }

  // The payloader

  /** Groups do not straddle the point where the numbers start again. */
  lemma NumberModulo(n: nat, number: nat)
    requires number == n % NUMBERS
    ensures EndsGroup(number) == EndsGroup(n) && number % DATA_SHARDS == n % DATA_SHARDS
    ensures (number + 1) % NUMBERS == (n + 1) % NUMBERS
    ensures EndsGroup(n) ==> number - (DATA_SHARDS - 1) == FirstOfGroup(n)
  {
    var q := n / NUMBERS;
    assert n == NUMBERS * q + number;
    InFours(number, NUMBERS / DATA_SHARDS * q);
    InFours(number + 1, NUMBERS / DATA_SHARDS * q);
    if number + 1 < NUMBERS {
      Wrapped(number + 1, q);
    } else {
      Wrapped(0, q + 1);
    }
    if EndsGroup(n) {
      Wrapped(number - (DATA_SHARDS - 1), q);
    }
  }

  lemma InFours(a: nat, t: nat)
    ensures (DATA_SHARDS * t + a) % DATA_SHARDS == a % DATA_SHARDS
  {
  }

  lemma Wrapped(a: nat, q: nat)
    requires a < NUMBERS
    ensures (NUMBERS * q + a) % NUMBERS == a
  {
  }

  lemma ParityOfPayloads(j: nat, g: seq<Bytes>, len: nat)
    requires j < FEC_SHARDS && |g| == DATA_SHARDS && Covered(g, len)
    ensures Combine(Parity()[j], Heads(g, len), len)[RTP_HEADER_SIZE..]
         == Combine(Parity()[j], Payloads(g, len), len - RTP_HEADER_SIZE)
  {
    CombineColumns(Parity()[j], Heads(g, len), len, RTP_HEADER_SIZE);
  }

  lemma FlatParity()
    ensures AUDIO_FEC_PARITY == FlatRows.Flat(Parity(), 0, FEC_SHARDS)
  {
    assert FlatRows.Flat(Parity(), 0, 1) == Parity()[0];
  }

  /** The library's codec for four and two shards, with the audio matrix in place of its own. */
  ghost predicate HasAudioMatrix(codec: Codec)
    reads codec, codec.p
  {
    && codec.Valid() && codec.ds == DATA_SHARDS && codec.ps == FEC_SHARDS && codec.matrix == Parity()
    && codec.p.Length == 2 * (FEC_SHARDS * DATA_SHARDS)
  }

  method NewCodec(isa: Isa) returns (rs: Codec)
    ensures fresh(rs) && fresh(rs.p) && HasAudioMatrix(rs)
  {
    rs := Codec.New(isa, DATA_SHARDS, FEC_SHARDS);
    FlatParity();
    rs.SetMatrix(AUDIO_FEC_PARITY, Parity());
  }

  /** Nothing but enough shards is asked for when audio is decoded; there is room for two losses. */
  lemma AudioCanDecode(codec: Codec, marks: seq<u8>, n: nat)
    requires HasAudioMatrix(codec) && TOTAL_SHARDS <= n && TOTAL_SHARDS <= |marks|
    requires EnoughSurvive(marks, DATA_SHARDS, FEC_SHARDS)
    ensures codec.CanDecode(marks, n)
  {
    assert CorrectsAllLosses(codec.matrix, codec.ds) by {
      AudioCorrectsAllLosses();
    }
    assert |Erased(marks, DATA_SHARDS)| <= FEC_SHARDS by {
      IndicesCount(marks, DATA_SHARDS, TOTAL_SHARDS);
    }
  }

  /** Buffers for six shards of the largest size. */
  method NewSlots() returns (slots: seq<Ptr>)
    ensures |slots| == TOTAL_SHARDS && Laid(slots, MAX_BLOCK_SIZE) && fresh(Buffers(slots))
    ensures forall i, j :: 0 <= i < j < |slots| ==> slots[i].buf != slots[j].buf
  {
    slots := [];
    for i := 0 to TOTAL_SHARDS
      invariant |slots| == i && Laid(slots, MAX_BLOCK_SIZE)
      invariant forall k :: 0 <= k < i ==> fresh(slots[k].buf)
      invariant forall k, l :: 0 <= k < l < i ==> slots[k].buf != slots[l].buf
    {
      var buffer := new u8[MAX_BLOCK_SIZE](_ => 0);
      slots := slots + [Ptr(buffer, 0)];
    }
  }

  /** Parity packet j as it follows data packet number. */
  ghost predicate FollowsGroup(packet: Bytes, number: nat, duration: nat, j: u8, g: seq<Bytes>)
    requires j < FEC_SHARDS && DATA_SHARDS - 1 <= number < NUMBERS && |g| == DATA_SHARDS
  {
    && FecHeader(number, duration, j) <= packet
    && IsParity(packet, j, g, number - (DATA_SHARDS - 1))
  }

  /** The group that packet ends. */
  ghost function NextGroup(batches: seq<Batch>, packet: Bytes): (g: seq<Bytes>)
    requires |batches| >= DATA_SHARDS - 1
    ensures |g| == DATA_SHARDS && g[DATA_SHARDS - 1] == packet
    ensures forall b: Batch :: b.data == packet ==> g == Group(batches + [b], |batches|)
  {
    Group(batches + [Batch(packet, [])], |batches|)
  }

  /** A call that emits the right packets continues the history. */
  lemma CallAdded(batches: seq<Batch>, b: Batch, number: nat, duration: nat)
    requires History(batches) && number == |batches| % NUMBERS
    requires RTP_HEADER_SIZE <= |b.data| <= MAX_BLOCK_SIZE && Number(b.data) == number
    requires if EndsGroup(number) then
               EndsGroup(|batches|) && Completes(b, number, duration, NextGroup(batches, b.data))
             else b.parity == []
    ensures History(batches + [b]) && HasHeaders(b, number, duration)
  {
    var n := |batches|;
    NumberModulo(n, number);
    HistoryGrows(batches, b);
  }

  /** The batch carries the parity of group g after data packet number. */
  ghost predicate Completes(b: Batch, number: nat, duration: nat, g: seq<Bytes>)
    requires EndsGroup(number) && number < NUMBERS && |g| == DATA_SHARDS
  {
    && |b.parity| == FEC_SHARDS
    && FollowsGroup(b.parity[0], number, duration, 0, g) && FollowsGroup(b.parity[1], number, duration, 1, g)
  }

  ghost predicate HasHeaders(b: Batch, number: nat, duration: nat)
  {
    && |b.parity| == (if EndsGroup(number) then FEC_SHARDS else 0)
    && forall j: u8 :: 0 <= j < |b.parity| ==>
         DATA_SHARDS - 1 <= number < NUMBERS && FecHeader(number, duration, j) <= b.parity[j]
  }

  /** On the wire two parity packets follow every fourth data packet, and none the others. */
  ghost predicate ParityOnWire(parity: seq<Bytes>, number: nat, duration: nat)
  {
    && |parity| == (if number % 4 == 3 then 2 else 0)
    && forall j :: 0 <= j < |parity| ==> IsParityHeader(parity[j], number, duration, j)
  }

  lemma HeadersOnWire(b: Batch, number: nat, duration: nat)
    requires HasHeaders(b, number, duration)
    ensures ParityOnWire(b.parity, number, duration)
  {
    forall j | 0 <= j < |b.parity|
      ensures IsParityHeader(b.parity[j], number, duration, j)
    {
      ParityHeaderBytes(b.parity[j], FecHeader(number, duration, j), number, duration, j, number - 3);
    }
  }

  ghost predicate Stored(slot: Ptr, packet: Bytes)
    reads slot.buf
  {
    slot.Has(|packet|) && slot.Bytes(|packet|) == packet
  }

  lemma FecHeaderIsRead(packet: Bytes, number: nat, duration: nat, j: u8)
    requires DATA_SHARDS - 1 <= number < NUMBERS && FecHeader(number, duration, j) <= packet
    ensures packet[12] == j && ReadBig16(packet, 14) == number - (DATA_SHARDS - 1)
  {
    var h := FecHeader(number, duration, j);
    assert packet[14..16] == h[14..16];
    ReadBig16Of(packet, 14, number - (DATA_SHARDS - 1));
  }

  /** What makes a packet with the right header and the parity bytes y a parity packet. */
  lemma ParityPacketIs(packet: Bytes, number: nat, duration: nat, j: u8, g: seq<Bytes>, y: Row, v: seq<Row>)
    requires DATA_SHARDS - 1 <= number < NUMBERS && j < FEC_SHARDS && |g| == DATA_SHARDS
    requires RTP_HEADER_SIZE <= |y| == |g[DATA_SHARDS - 1]|
    requires packet == FecHeader(number, duration, j) + y[RTP_HEADER_SIZE..]
    requires |v| >= DATA_SHARDS && Uniform(v, |y|) && y == Combine(Parity()[j], v[..DATA_SHARDS], |y|)
    requires Covered(g, |y|) ==> v[..DATA_SHARDS] == Heads(g, |y|)
    ensures FollowsGroup(packet, number, duration, j, g)
  {
    FecHeaderIsRead(packet, number, duration, j);
    assert packet[FEC_HEADER_SIZE..] == y[RTP_HEADER_SIZE..];
    if Covered(g, |y|) {
      ParityOfPayloads(j, g, |y|);
    }
  }

  method RepairGroup(codec: Codec, marks: seq<u8>, shards: seq<Ptr>, w: nat) returns (status: int)
    requires HasAudioMatrix(codec) && Laid(shards, w) && codec.Separate(shards)
    requires |shards| == TOTAL_SHARDS <= |marks| && EnoughSurvive(marks, DATA_SHARDS, FEC_SHARDS)
    modifies codec.p, Buffers(shards)
    ensures status == 0 && View(shards, w) == Repaired(Parity(), marks, old(View(shards, w)), DATA_SHARDS, w)
  {
    AudioCanDecode(codec, marks, TOTAL_SHARDS);
    status := codec.Decode(marks, shards, w);
  }

  /**
   The receiver of a group: whatever two of the six packets are lost, decoding their payload
   columns in place gives the payloads of the group.
   */
  method DecodeGroup(codec: Codec, marks: seq<u8>, shards: seq<Ptr>, len: nat,
                     ghost g: seq<Bytes>, ghost parity: seq<Bytes>, ghost first: nat)
    returns (status: int)
    requires Coded(g, parity, first) && len == |g[DATA_SHARDS - 1]| && Covered(g, len)
    requires |marks| >= TOTAL_SHARDS && |Indices(marks, 0, TOTAL_SHARDS, true)| <= FEC_SHARDS
    requires HasAudioMatrix(codec) && Laid(shards, len - RTP_HEADER_SIZE) && codec.Separate(shards)
    requires |shards| == TOTAL_SHARDS
    requires Received(View(shards, len - RTP_HEADER_SIZE), Payloads(g, len), parity, marks)
    modifies codec.p, Buffers(shards)
    ensures status == 0 && View(shards, len - RTP_HEADER_SIZE)[..DATA_SHARDS] == Payloads(g, len)
  {
    GroupRecovers(g, parity, first, marks, View(shards, len - RTP_HEADER_SIZE), len);
    status := RepairGroup(codec, marks, shards, len - RTP_HEADER_SIZE);
  }

  class AudioPayloader {
    const codec: Codec
    const slots: seq<Ptr>  // the last packets of the group, and its parity
    const cipher: (Bytes, nat) -> Bytes  // what encrypts a payload under the number of its packet
    var encrypt: bool
    var packetDuration: nat
    var curSeqNumber: nat
    ghost var calls: seq<Call>  // everything that came in
    ghost var batches: seq<Batch>  // and everything that was emitted

    // The codec has the audio matrix, and there are six separate buffers.
    ghost predicate Equipped()
      reads codec, codec.p
    {
      && HasAudioMatrix(codec)
      && |slots| == TOTAL_SHARDS && Laid(slots, MAX_BLOCK_SIZE) && codec.Separate(slots)
      && (forall i, j :: 0 <= i < j < |slots| ==> slots[i].buf != slots[j].buf)
    }

    ghost predicate Valid()
      reads this, codec, codec.p, Buffers(slots)
    {
      InGroup() && AllSent(batches, calls, cipher)
    }

    // The slots, the counter and the history of what was emitted fit together.
    ghost predicate InGroup()
      reads this, codec, codec.p, Buffers(slots)
    {
      && Equipped()
      && History(batches) && curSeqNumber == |batches| % NUMBERS
      && SlotsHold(batches)
    }

    // Slot k holds the data packet k of the group that is under way.
    ghost predicate SlotIs(bs: seq<Batch>, k: nat)
      requires k < |bs| % DATA_SHARDS && k < |slots|
      reads Buffers(slots)
    {
      Stored(slots[k], bs[|bs| - |bs| % DATA_SHARDS + k].data)
    }

    ghost predicate SlotsHold(bs: seq<Batch>)
      requires |slots| == TOTAL_SHARDS
      reads Buffers(slots)
    {
      forall k :: 0 <= k < |bs| % DATA_SHARDS ==> SlotIs(bs, k)
    }

    lemma SlotsHoldNext(bs: seq<Batch>, b: Batch)
      requires |slots| == TOTAL_SHARDS && SlotsHold(bs)
      requires Stored(slots[|bs| % DATA_SHARDS], b.data)
      ensures SlotsHold(bs + [b])
    {
      var n := |bs|;
      assert (n + 1) % DATA_SHARDS == if EndsGroup(n) then 0 else n % DATA_SHARDS + 1;
      if !EndsGroup(n) {
        forall k | 0 <= k < n % DATA_SHARDS + 1
          ensures SlotIs(bs + [b], k)
        {
          if k < n % DATA_SHARDS {
            assert SlotIs(bs, k);
          }
        }
      }
    }

    constructor (isa: Isa, cipher: (Bytes, nat) -> Bytes)
      ensures Valid() && batches == [] && calls == [] && this.cipher == cipher && encrypt && packetDuration == 5
      ensures fresh(codec) && fresh(codec.p) && fresh(Buffers(slots))
    {
      var buffers := NewSlots();
      var rs := NewCodec(isa);
      codec, slots := rs, buffers;
      this.cipher := cipher;
      encrypt, packetDuration, curSeqNumber, calls, batches := true, 5, 0, [], [];
    }

    method SetProperties(encrypt: bool, packetDuration: nat)
      requires Valid()
      modifies `encrypt, `packetDuration
      ensures Valid() && this.encrypt == encrypt && this.packetDuration == packetDuration
    {
      this.encrypt, this.packetDuration := encrypt, packetDuration;
    }

    function DataPacket(inbuf: Bytes): (packet: Bytes)
      reads this
    {
      var payload := if encrypt then cipher(inbuf, curSeqNumber) else inbuf;
      DataHeader(curSeqNumber, packetDuration) + payload
    }

    lemma SlotsLaid(len: nat)
      requires |slots| == TOTAL_SHARDS && Laid(slots, MAX_BLOCK_SIZE) && len <= MAX_BLOCK_SIZE
      requires forall i, j :: 0 <= i < j < |slots| ==> slots[i].buf != slots[j].buf
      ensures Laid(slots, len)
    {
    }

    // The slots hold the packets of the group, seen up to len.
    lemma SlotHeads(v: seq<Row>, g: seq<Bytes>, len: nat)
      requires |slots| == TOTAL_SHARDS && Laid(slots, len) && v == View(slots, len)
      requires |g| == DATA_SHARDS && Covered(g, len)
      requires forall k :: 0 <= k < DATA_SHARDS ==> Stored(slots[k], g[k])
      ensures v[..DATA_SHARDS] == Heads(g, len)
    {
      forall k | 0 <= k < DATA_SHARDS
        ensures v[k] == Heads(g, len)[k]
      {
        assert Stored(slots[k], g[k]);
        SliceOfSlice(slots[k].buf[..], slots[k].off, slots[k].off + |g[k]|, 0, len);
      }
    }

    // The parity packets after data packet number, over the first len bytes of the slots.
    method ParityPackets(number: nat, len: nat, ghost g: seq<Bytes>) returns (fec: seq<Bytes>)
      requires Equipped() && RTP_HEADER_SIZE <= len <= MAX_BLOCK_SIZE && DATA_SHARDS - 1 <= number < NUMBERS
      requires |g| == DATA_SHARDS && |g[DATA_SHARDS - 1]| == len
      requires forall k :: 0 <= k < DATA_SHARDS ==> Stored(slots[k], g[k])
      modifies Buffers(slots)
      ensures Equipped() && |fec| == FEC_SHARDS
      ensures forall j :: 0 <= j < FEC_SHARDS ==> FollowsGroup(fec[j], number, packetDuration, j, g)
    {
      SlotsLaid(len);
      ghost var v := View(slots, len);
      if Covered(g, len) {
        SlotHeads(v, g, len);
      }
      EncodeSlots(len);
      fec := CollectParity(number, len, g, v);
    }

    method EncodeSlots(len: nat)
      requires Equipped() && Laid(slots, len)
      modifies Buffers(slots)
      ensures Equipped()
      ensures CodedFrom(len, old(View(slots, len)))
    {
      ghost var v := View(slots, len);
      var status := codec.Encode(slots, len);
      ghost var enc := Encoded(codec.matrix, v[..DATA_SHARDS], len);
      forall j | 0 <= j < FEC_SHARDS
        ensures View(slots, len)[DATA_SHARDS + j] == Combine(Parity()[j], v[..DATA_SHARDS], len)
      {
        assert View(slots, len)[DATA_SHARDS + j] == enc[j];
      }
    }

    // The last two slots hold the parity of what the others held in v.
    ghost predicate CodedFrom(len: nat, v: seq<Row>)
      requires |slots| == TOTAL_SHARDS && Laid(slots, len)
      reads Buffers(slots)
    {
      && |v| == TOTAL_SHARDS && Uniform(v, len)
      && forall j :: 0 <= j < FEC_SHARDS ==>
           View(slots, len)[DATA_SHARDS + j] == Combine(Parity()[j], v[..DATA_SHARDS], len)
    }

    method CollectParity(number: nat, len: nat, ghost g: seq<Bytes>, ghost v: seq<Row>) returns (fec: seq<Bytes>)
      requires DATA_SHARDS - 1 <= number < NUMBERS && |slots| == TOTAL_SHARDS && Laid(slots, len)
      requires |g| == DATA_SHARDS && RTP_HEADER_SIZE <= len == |g[DATA_SHARDS - 1]|
      requires CodedFrom(len, v) && (Covered(g, len) ==> v[..DATA_SHARDS] == Heads(g, len))
      ensures |fec| == FEC_SHARDS
      ensures forall j :: 0 <= j < FEC_SHARDS ==> FollowsGroup(fec[j], number, packetDuration, j, g)
    {
      fec := [];
      for j := 0 to FEC_SHARDS
        invariant |fec| == j
        invariant forall i :: 0 <= i < j ==> FollowsGroup(fec[i], number, packetDuration, i, g)
      {
        var packet := ParityPacket(number, len, j, g, v);
        fec := fec + [packet];
      }
    }

    method ParityPacket(number: nat, len: nat, j: u8, ghost g: seq<Bytes>, ghost v: seq<Row>) returns (packet: Bytes)
      requires j < FEC_SHARDS && DATA_SHARDS - 1 <= number < NUMBERS && |slots| == TOTAL_SHARDS && Laid(slots, len)
      requires |g| == DATA_SHARDS && RTP_HEADER_SIZE <= len == |g[DATA_SHARDS - 1]|
      requires |v| >= DATA_SHARDS && Uniform(v, len)
      requires View(slots, len)[DATA_SHARDS + j] == Combine(Parity()[j], v[..DATA_SHARDS], len)
      requires Covered(g, len) ==> v[..DATA_SHARDS] == Heads(g, len)
      ensures FollowsGroup(packet, number, packetDuration, j, g)
    {
      var slot := slots[DATA_SHARDS + j];
      var payload := slot.buf[slot.off + RTP_HEADER_SIZE..slot.off + len];
      packet := FecHeader(number, packetDuration, j) + payload;
      ParityPacketIs(packet, number, packetDuration, j, g, slot.Bytes(len), v);
    }

    method StorePacket(packet: Bytes, k: nat)
      requires |slots| == TOTAL_SHARDS && Laid(slots, MAX_BLOCK_SIZE) && |packet| <= MAX_BLOCK_SIZE && k < |slots|
      modifies slots[k].buf
      ensures Stored(slots[k], packet)
    {
      ghost var was := slots[k].buf[..];
      Store(slots[k], packet);
      SpliceAt(was, slots[k].off, packet, slots[k].off, |packet|);
    }

    // The packets for one buffer of audio: one for the buffer, and two more after each fourth.
    method SplitIntoRtp(inbuf: Bytes) returns (packets: seq<Bytes>, ghost b: Batch)
      requires Valid() && |DataPacket(inbuf)| <= MAX_BLOCK_SIZE
      modifies `curSeqNumber, `calls, `batches, Buffers(slots)
      ensures Valid() && batches == old(batches) + [b] && packets == [b.data] + b.parity
      ensures calls == old(calls) + [Call(inbuf, encrypt, packetDuration)]
      ensures var number := |old(batches)| % 0x1_0000;
              && IsDataPacket(packets[0], number, packetDuration, if encrypt then cipher(inbuf, number) else inbuf)
              && ParityOnWire(packets[1..], number, packetDuration)
    {
      DataPacketSeals(inbuf);
      packets, b := Emit(inbuf);
      HeadersOnWire(b, old(curSeqNumber), packetDuration);
      assert packets[1..] == b.parity;
      OneMoreSent(old(batches), calls, cipher, b, Call(inbuf, encrypt, packetDuration));
      calls := calls + [Call(inbuf, encrypt, packetDuration)];
    }

    method Emit(inbuf: Bytes) returns (packets: seq<Bytes>, ghost b: Batch)
      requires InGroup() && |DataPacket(inbuf)| <= MAX_BLOCK_SIZE
      modifies `curSeqNumber, `batches, Buffers(slots)
      ensures InGroup() && batches == old(batches) + [b] && packets == [b.data] + b.parity
      ensures b.data == old(DataPacket(inbuf))
      ensures HasHeaders(b, old(curSeqNumber), packetDuration)
    {
      NumberModulo(|batches|, curSeqNumber);
      DataPacketIs(inbuf);
      var packet := DataPacket(inbuf);
      StoreNext(packet);
      var fec := ParityAfter(packet);
      b := Batch(packet, fec);
      CallAdded(batches, b, curSeqNumber, packetDuration);
      batches := batches + [b];
      curSeqNumber := (curSeqNumber + 1) % NUMBERS;
      packets := [packet] + fec;
    }

    method StoreNext(packet: Bytes)
      requires Equipped() && curSeqNumber == |batches| % NUMBERS && |packet| <= MAX_BLOCK_SIZE && SlotsHold(batches)
      modifies Buffers(slots)
      ensures Equipped() && SlotsHold(batches) && Stored(slots[|batches| % DATA_SHARDS], packet)
    {
      NumberModulo(|batches|, curSeqNumber);
      StorePacket(packet, curSeqNumber % DATA_SHARDS);
      forall k | 0 <= k < |batches| % DATA_SHARDS
        ensures SlotIs(batches, k)
      {
        assert old(SlotIs(batches, k));
      }
    }

    // After the last packet of a group its parity, otherwise nothing.
    method ParityAfter(packet: Bytes) returns (fec: seq<Bytes>)
      requires Equipped() && curSeqNumber == |batches| % NUMBERS < NUMBERS
               && RTP_HEADER_SIZE <= |packet| <= MAX_BLOCK_SIZE
      requires SlotsHold(batches)
      requires Stored(slots[|batches| % DATA_SHARDS], packet)
      modifies Buffers(slots)
      ensures Equipped() && SlotsHold(batches + [Batch(packet, fec)])
      ensures if EndsGroup(curSeqNumber) then
                && EndsGroup(|batches|)
                && Completes(Batch(packet, fec), curSeqNumber, packetDuration, NextGroup(batches, packet))
              else fec == []
    {
      NumberModulo(|batches|, curSeqNumber);
      fec := [];
      if EndsGroup(curSeqNumber) {
        GroupStored(packet);
        fec := ParityPackets(curSeqNumber, |packet|, NextGroup(batches, packet));
        NoSlotInUse(batches + [Batch(packet, fec)]);
      } else {
        SlotsHoldNext(batches, Batch(packet, fec));
      }
    }

    lemma NoSlotInUse(bs: seq<Batch>)
      requires |slots| == TOTAL_SHARDS && |bs| % DATA_SHARDS == 0
      ensures SlotsHold(bs)
    {
    }

    lemma GroupStored(packet: Bytes)
      requires EndsGroup(|batches|) && |slots| == TOTAL_SHARDS && SlotsHold(batches)
      requires Stored(slots[DATA_SHARDS - 1], packet)
      ensures forall k :: 0 <= k < DATA_SHARDS ==> Stored(slots[k], NextGroup(batches, packet)[k])
    {
      var g := NextGroup(batches, packet);
      forall k | 0 <= k < DATA_SHARDS
        ensures Stored(slots[k], g[k])
      {
        if k < DATA_SHARDS - 1 {
          assert SlotIs(batches, k);
        }
      }
    }

    lemma DataPacketSeals(inbuf: Bytes)
      requires curSeqNumber < NUMBERS
      ensures IsDataPacket(DataPacket(inbuf), curSeqNumber, packetDuration,
                           if encrypt then cipher(inbuf, curSeqNumber) else inbuf)
    {
      DataPacketBytes(curSeqNumber, packetDuration, if encrypt then cipher(inbuf, curSeqNumber) else inbuf);
    }

    lemma DataPacketIs(inbuf: Bytes)
      requires curSeqNumber < NUMBERS
      ensures |DataPacket(inbuf)| >= RTP_HEADER_SIZE && Number(DataPacket(inbuf)) == curSeqNumber
    {
      var h := DataHeader(curSeqNumber, packetDuration);
      assert DataPacket(inbuf)[2..4] == h[2..4];
      ReadBig16Of(DataPacket(inbuf), 2, curSeqNumber);
    }
  }
}
