/** Cutting a frame into payloads, and joining them again. */
module VideoFrame {
  import opened Vectors
  import opened Memory
  import opened WireFormat

  const SHORT_HEADER_SIZE := 8
  const MAX_RTP_HEADER_SIZE := 16
  const LENGTHS := 0x1_0000

  /** How many bytes are left for the last payload of total bytes, as the short header says it. */
  function LastPayloadLen(total: nat, w: nat): nat
    requires w > 0
  {
    if total % w % LENGTHS == 0 then w % LENGTHS else total % w % LENGTHS
  }

  function ShortHeader(total: nat, w: nat, isKey: bool): (h: Bytes)
    requires w > 0
    ensures |h| == SHORT_HEADER_SIZE && h[4..6] == Little16(LastPayloadLen(total, w))
  {
    [1, 0, 0, if isKey then 2 else 1] + Little16(LastPayloadLen(total, w)) + [0, 0]
  }

  function WithShortHeader(frame: Bytes, w: nat, isKey: bool): (s: Bytes)
    requires w > 0
    ensures |s| == SHORT_HEADER_SIZE + |frame| && s[SHORT_HEADER_SIZE..] == frame
  {
    ShortHeader(SHORT_HEADER_SIZE + |frame|, w, isKey) + frame
  }

  /** The number of payloads of w bytes. */
  function Packets(total: nat, w: nat): (n: nat)
    requires w > 0
  {
    (total + w - 1) / w
  }

  lemma PacketsCover(total: nat, w: nat)
    requires w > 0 && total > 0
    ensures Packets(total, w) > 0 && (Packets(total, w) - 1) * w < total <= Packets(total, w) * w
  {
    var n, r := (total + w - 1) / w, (total + w - 1) % w;
    assert total + w - 1 == n * w + r;
    assert (n - 1) * w == n * w - w;
  }

  /** The payload of s from begin on: w bytes, fewer at the end of s, or filled up with zeroes. */
  function Payload(s: Bytes, w: nat, begin: nat, addPadding: bool): (p: Bytes)
    requires begin <= |s|
    ensures |p| <= w && (addPadding ==> |p| == w)
    ensures begin + w <= |s| ==> p == s[begin..begin + w]
    ensures begin + w >= |s| ==> s[begin..] <= p
  {
    var remaining := |s| - begin;
    var payload := s[begin..begin + if remaining < w then remaining else w];
    payload + if remaining < w && addPadding then Zeros(w - remaining) else []
  }

  /** With padding or without, the payload filled up to w bytes is the same. */
  lemma PayloadFilled(s: Bytes, w: nat, begin: nat, addPadding: bool)
    requires begin <= |s|
    ensures Payload(s, w, begin, true)
             == Payload(s, w, begin, addPadding) + Zeros(w - |Payload(s, w, begin, addPadding)|)
  {
  }

  function Payloads(s: Bytes, w: nat, addPadding: bool): (ps: seq<Bytes>)
    requires w > 0 && |s| > 0
    ensures |ps| == Packets(|s|, w)
    ensures forall nr :: 0 <= nr < |ps| ==> ps[nr] == PayloadAt(s, w, nr, addPadding)
  {
    seq(Packets(|s|, w), nr requires 0 <= nr < Packets(|s|, w) => PayloadAt(s, w, nr, addPadding))
  }

  function PayloadAt(s: Bytes, w: nat, nr: nat, addPadding: bool): (p: Bytes)
    requires w > 0 && |s| > 0 && nr < Packets(|s|, w)
    ensures |p| <= w && (nr + 1 < Packets(|s|, w) ==> |p| == w)
  {
    PayloadStarts(s, w, nr);
    Payload(s, w, nr * w, addPadding)
  }

  lemma PayloadStarts(s: Bytes, w: nat, nr: nat)
    requires w > 0 && |s| > 0 && nr < Packets(|s|, w)
    ensures nr * w < |s| && (nr + 1 < Packets(|s|, w) ==> nr * w + w <= |s|)
  {
    var n := Packets(|s|, w);
    PacketsCover(|s|, w);
    ProductGrows(nr, n - 1 - nr, w);
    if nr + 1 < n {
      ProductGrows(nr, 1, w);
      ProductGrows(nr + 1, n - 2 - nr, w);
    }
  }

  // Joining

  function Join<T>(ps: seq<seq<T>>): seq<T>
  {
    if ps == [] then [] else Join(ps[..|ps| - 1]) + ps[|ps| - 1]
  }

  /** The frame in the payloads: the last one is cut to the length that the short header gives. */
  function Joined(ps: seq<Bytes>): Bytes
    requires |ps| > 0
  {
    var whole := Join(ps);
    var before := |Join(ps[..|ps| - 1])|;
    if |whole| < SHORT_HEADER_SIZE then []
    else
      var end := before + ReadLittle16(whole, 4);
      if SHORT_HEADER_SIZE <= end <= |whole| then whole[SHORT_HEADER_SIZE..end] else []
  }

  lemma {:induction false} JoinOfPayloads(s: Bytes, w: nat, addPadding: bool, n: nat, begin: nat)
    requires w > 0 && |s| > 0 && n < Packets(|s|, w) && begin == n * w
    ensures begin < |s| && Join(Payloads(s, w, addPadding)[..n]) == s[..begin]
  {
    PayloadStarts(s, w, n);
    if n == 0 {
      assert Payloads(s, w, addPadding)[..n] == [];
    } else {
      Previous(s, w, n, begin);
      JoinOfPayloads(s, w, addPadding, n - 1, begin - w);
      JoinNext(Payloads(s, w, addPadding), n - 1, s, begin - w, w);
    }
  }

  lemma Previous(s: Bytes, w: nat, n: nat, begin: nat)
    requires w > 0 && |s| > 0 && 0 < n < Packets(|s|, w) && begin == n * w
    ensures begin >= w && begin - w == (n - 1) * w && begin <= |s|
  {
    PayloadStarts(s, w, n);
    ProductGrows(n - 1, 1, w);
  }

  lemma JoinNext(ps: seq<Bytes>, n: nat, s: Bytes, begin: nat, w: nat)
    requires n < |ps| && begin + w <= |s|
    requires Join(ps[..n]) == s[..begin] && ps[n] == s[begin..begin + w]
    ensures Join(ps[..n + 1]) == s[..begin + w]
  {
    assert ps[..n + 1][..n] == ps[..n];
  }

  /** The length of the last payload, without padding. */
  function LastLength(total: nat, w: nat): (last: nat)
    requires w > 0
    ensures 0 < last <= w
  {
    if total % w == 0 then w else total % w
  }

  lemma LastLengthIs(total: nat, w: nat)
    requires w > 0 && total > 0
    ensures (Packets(total, w) - 1) * w == total - LastLength(total, w) >= 0
  {
    PacketsCover(total, w);
    var n := Packets(total, w);
    var last := total - (n - 1) * w;
    ProductGrows(n - 1, 1, w);
    if last < w {
      QuotientUnique(total, w, n - 1, last);
    } else {
      QuotientUnique(total, w, n, 0);
    }
  }

  lemma LastPayloadLenIs(total: nat, w: nat)
    requires w > 0
    ensures LastPayloadLen(total, w) <= LastLength(total, w)
    ensures LastPayloadLen(total, w) == LastLength(total, w) <==> LastLength(total, w) < LENGTHS
  {
  }

  /** All payloads joined are the whole, and the padding of the last one. */
  lemma JoinAll(s: Bytes, w: nat, addPadding: bool)
    requires w > 0 && |s| > 0
    ensures var ps := Payloads(s, w, addPadding);
            && |ps| > 0 && s <= Join(ps) && |Join(ps[..|ps| - 1])| + LastLength(|s|, w) == |s|
  {
    var ps := Payloads(s, w, addPadding);
    var n := |ps| - 1;
    PacketsCover(|s|, w);
    LastLengthIs(|s|, w);
    var begin := n * w;
    JoinOfPayloads(s, w, addPadding, n, begin);
    assert s == s[..begin] + s[begin..];
    assert s[begin..] <= ps[n];
  }

  /**
   Cutting and joining: the receiver gets exactly the frame back, with padding or without, just
   when the length of the last payload fits its 16 bits.
   */
  lemma JoinedIsFrame(frame: Bytes, w: nat, isKey: bool, addPadding: bool)
    requires w > 0
    ensures var s := WithShortHeader(frame, w, isKey);
            var ps := Payloads(s, w, addPadding);
            |ps| > 0 && (Joined(ps) == frame <==> LastLength(|s|, w) < LENGTHS)
  {
    var s := WithShortHeader(frame, w, isKey);
    var ps := Payloads(s, w, addPadding);
    JoinAll(s, w, addPadding);
    LastPayloadLenIs(|s|, w);
    ShortHeaderIsRead(frame, w, isKey, Join(ps));
    CutAt(ps, s, frame, |Join(ps[..|ps| - 1])|, LastPayloadLen(|s|, w));
  }

  lemma ShortHeaderIsRead(frame: Bytes, w: nat, isKey: bool, whole: Bytes)
    requires w > 0 && WithShortHeader(frame, w, isKey) <= whole
    ensures ReadLittle16(whole, 4) == LastPayloadLen(SHORT_HEADER_SIZE + |frame|, w)
  {
    var s := WithShortHeader(frame, w, isKey);
    assert whole[4..6] == s[4..6] == ShortHeader(|s|, w, isKey)[4..6];
    ReadLittle16Of(whole, 4, LastPayloadLen(|s|, w));
  }

  /** Joining gives the frame when the cut is at the end of s, and less when it is before it. */
  lemma CutAt(ps: seq<Bytes>, s: Bytes, frame: Bytes, before: nat, last: nat)
    requires |ps| > 0 && s <= Join(ps) && |Join(ps[..|ps| - 1])| == before
    requires |s| >= SHORT_HEADER_SIZE && s[SHORT_HEADER_SIZE..] == frame && ReadLittle16(Join(ps), 4) == last
    requires before + last == |s| || (before + last < |s| && |s| > SHORT_HEADER_SIZE)
    ensures Joined(ps) == frame <==> before + last == |s|
  {
    if before + last == |s| {
      assert Join(ps)[SHORT_HEADER_SIZE..before + last] == s[SHORT_HEADER_SIZE..];
    } else {
      assert |Joined(ps)| < |frame|;
    }
  }
}
