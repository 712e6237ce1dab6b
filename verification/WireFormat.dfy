/** Numbers in packet headers, byte by byte. */
module WireFormat {
  import opened Bits

  type Bytes = seq<u8>

  function Big16(n: nat): (s: Bytes)
    ensures |s| == 2
  {
    [n / 256 % 256, n % 256]
  }

  function Big32(n: nat): (s: Bytes)
    ensures |s| == 4
  {
    [n / 0x100_0000 % 256, n / 0x1_0000 % 256, n / 256 % 256, n % 256]
  }

  function Little16(n: nat): (s: Bytes)
    ensures |s| == 2
  {
    [n % 256, n / 256 % 256]
  }

  function Little32(n: nat): (s: Bytes)
    ensures |s| == 4
  {
    [n % 256, n / 256 % 256, n / 0x1_0000 % 256, n / 0x100_0000 % 256]
  }

  function ReadBig16(s: Bytes, at: nat): nat
    requires at + 2 <= |s|
  {
    256 * (s[at] as int) + s[at + 1] as int
  }

  function ReadLittle16(s: Bytes, at: nat): nat
    requires at + 2 <= |s|
  {
    s[at] as int + 256 * (s[at + 1] as int)
  }

  function ReadLittle32(s: Bytes, at: nat): nat
    requires at + 4 <= |s|
  {
    s[at] as int + 256 * (s[at + 1] as int) + 0x1_0000 * (s[at + 2] as int) + 0x100_0000 * (s[at + 3] as int)
  }

  lemma ReadBig16Of(s: Bytes, at: nat, n: nat)
    requires at + 2 <= |s| && s[at..at + 2] == Big16(n)
    ensures ReadBig16(s, at) == n % 0x1_0000
  {
    SliceAt(s, at, Big16(n));
    TwoDigits(n);
  }

  lemma ReadLittle16Of(s: Bytes, at: nat, n: nat)
    requires at + 2 <= |s| && s[at..at + 2] == Little16(n)
    ensures ReadLittle16(s, at) == n % 0x1_0000
  {
    SliceAt(s, at, Little16(n));
    TwoDigits(n);
  }

  lemma ReadLittle32Of(s: Bytes, at: nat, n: nat)
    requires at + 4 <= |s| && s[at..at + 4] == Little32(n)
    ensures ReadLittle32(s, at) == n % 0x1_0000_0000
  {
    SliceAt(s, at, Little32(n));
    LittleDigits(n);
  }

  lemma SliceAt(s: Bytes, at: nat, t: Bytes)
    requires at + |t| <= |s| && s[at..at + |t|] == t
    ensures forall i :: 0 <= i < |t| ==> t[i] == s[at + i]
  {
    forall i | 0 <= i < |t|
      ensures t[i] == s[at + i]
    {
      assert s[at..at + |t|][i] == s[at + i];
    }
  }

  lemma TwoDigits(n: nat)
    ensures n % 0x1_0000 == n % 256 + 256 * (n / 256 % 256)
  {
    var q1 := n / 256;
    var q2 := q1 / 256;
    assert n / 0x1_0000 == q2;
  }

  lemma LittleDigits(n: nat)
    ensures n % 0x1_0000_0000
         == n % 256 + 256 * (n / 256 % 256) + 0x1_0000 * (n / 0x1_0000 % 256) + 0x100_0000 * (n / 0x100_0000 % 256)
  {
    var q1 := n / 256;
    var q2 := q1 / 256;
    var q3 := q2 / 256;
    var q4 := q3 / 256;
    assert n / 0x1_0000 == q2 && n / 0x100_0000 == q3 && n / 0x1_0000_0000 == q4;
  }

  /** The fixed header of an RTP packet, with the synchronisation source left zero. */
  function RtpHeader(flags: u8, packetType: u8, number: nat, timestamp: nat): (s: Bytes)
    ensures |s| == 12 && s[0] == flags && s[2..4] == Big16(number)
  {
    [flags, packetType] + Big16(number) + Big32(timestamp) + Big32(0)
  }

  /** The number of an RTP packet. */
  function Number(packet: Bytes): nat
    requires |packet| >= 12
  {
    ReadBig16(packet, 2)
  }
}
