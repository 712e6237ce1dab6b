/** Runs of packets with consecutive numbers. */
module PacketNumbers {
  import opened WireFormat

  const HEADER_SIZE := 32
  const NUMBERS := 0x1_0000
  const WORDS := 0x1_0000_0000

  /** Packet i has number first + i. */
  ghost predicate Numbered(packets: seq<Bytes>, first: nat)
  {
    forall i :: 0 <= i < |packets| ==> |packets[i]| >= HEADER_SIZE && Number(packets[i]) == (first + i) % NUMBERS
  }

  /** Sums modulo 2^32 give the same packet numbers, which have 16 bits. */
  lemma SameNumber(m: nat, n: nat, i: nat)
    requires m == n % WORDS || m % NUMBERS == n % NUMBERS
    ensures m % NUMBERS == n % NUMBERS && (m + i) % NUMBERS == (n + i) % NUMBERS
  {
    if m == n % WORDS {
      var q := n / WORDS;
      SameRemainder(m, NUMBERS * q);
    }
    AddRemainder(m, i);
    AddRemainder(n, i);
  }

  lemma SameRemainder(m: nat, t: nat)
    ensures (m + NUMBERS * t) % NUMBERS == m % NUMBERS
  {
  }

  lemma AddRemainder(m: nat, i: nat)
    ensures (m + i) % NUMBERS == (m % NUMBERS + i) % NUMBERS
  {
    SameRemainder(m % NUMBERS + i, m / NUMBERS);
  }

  lemma Shifted(n: nat, a: nat, b: nat)
    ensures (n + a) % NUMBERS == (n + b) % NUMBERS <==> b % NUMBERS == a % NUMBERS
  {
    var q, p := a / NUMBERS, b / NUMBERS;
    SameRemainder(n + a % NUMBERS, q);
    SameRemainder(n + b % NUMBERS, p);
    var m := n / NUMBERS;
    SameRemainder(n % NUMBERS + a % NUMBERS, m);
    SameRemainder(n % NUMBERS + b % NUMBERS, m);
  }

  lemma Lags(index: nat, number: nat, n: nat, cut: nat, sent: nat)
    requires index == (n + cut) % NUMBERS && number == (n + sent) % NUMBERS
    ensures index == number <==> sent % NUMBERS == cut % NUMBERS
  {
    Shifted(n, cut, sent);
  }

  /** Cutting n to 24 bits in a word of 32 keeps its lower 16. */
  lemma UpperBits(n: nat)
    ensures n * 0x100 % WORDS / 0x100 % NUMBERS == n % NUMBERS
  {
    var q, r := n / 0x100_0000, n % 0x100_0000;
    assert n * 0x100 == WORDS * q + r * 0x100;
    assert n * 0x100 % WORDS == r * 0x100;
    SameRemainder(r, 0x100 * q);
  }

  lemma NumberedAlike(packets: seq<Bytes>, m: nat, n: nat)
    requires Numbered(packets, m) && m % NUMBERS == n % NUMBERS
    ensures Numbered(packets, n)
  {
    forall i | 0 <= i < |packets|
      ensures Number(packets[i]) == (n + i) % NUMBERS
    {
      SameNumber(m, n, i);
    }
  }

  lemma NumberAt(packets: seq<Bytes>, first: nat, total: nat, i: nat)
    requires Numbered(packets, first) && first == total % WORDS && i < |packets|
    ensures Number(packets[i]) == (total + i) % NUMBERS
  {
    SameNumber(first, total, i);
  }

  lemma NumberedJoin(a: seq<Bytes>, b: seq<Bytes>, first: nat)
    requires Numbered(a, first) && Numbered(b, first + |a|)
    ensures Numbered(a + b, first)
  {
    forall i | 0 <= i < |a + b|
      ensures |(a + b)[i]| >= HEADER_SIZE && Number((a + b)[i]) == (first + i) % NUMBERS
    {
      if i >= |a| {
        assert (a + b)[i] == b[i - |a|];
      }
    }
  }

  /** Packets that are numbered from number on continue out exactly when number is its length modulo 2^16. */
  lemma Continues(out: seq<Bytes>, number: nat, packets: seq<Bytes>)
    requires Numbered(out, 0) && Numbered(packets, number)
    ensures number % NUMBERS == |out| % NUMBERS ==> Numbered(out + packets, 0)
    ensures number == |out| % WORDS ==>
              Numbered(out + packets, 0) && (number + |packets|) % WORDS == |out + packets| % WORDS
    ensures |packets| > 0 && Numbered(out + packets, 0) ==> number % NUMBERS == |out| % NUMBERS
  {
    if number == |out| % WORDS {
      SameNumber(number, |out|, 0);
    }
    if number % NUMBERS == |out| % NUMBERS {
      NumberedAlike(packets, number, |out|);
      NumberedJoin(out, packets, 0);
    }
    if |packets| > 0 {
      assert (out + packets)[|out|] == packets[0];
    }
  }

  // The counter of a stream

  /** The counter and the packets that were sent. */
  datatype Stream = Stream(number: nat, out: seq<Bytes>)

  /** After more packets the counter moves behind them, or stands still. */
  ghost function Advance(r: Stream, moves: bool, packets: seq<Bytes>): Stream
  {
    Stream(if moves then (r.number + |packets|) % WORDS else r.number, r.out + packets)
  }

  ghost predicate InStep(r: Stream)
  {
    Numbered(r.out, 0) && r.number == |r.out| % WORDS
  }

  lemma AdvanceKeepsStep(r: Stream, packets: seq<Bytes>)
    requires InStep(r) && Numbered(packets, r.number)
    ensures InStep(Advance(r, true, packets))
  {
    Continues(r.out, r.number, packets);
  }

  /** The counter gives the next packet the number that the receiver expects. */
  ghost predicate UpToDate(r: Stream)
  {
    r.number % NUMBERS == |r.out| % NUMBERS
  }

  /**
   More packets continue the numbers if the counter is up to date; it stays so if it moves, or
   if the packets go once round.
   */
  lemma AdvanceStands(r: Stream, moves: bool, packets: seq<Bytes>)
    requires Numbered(packets, r.number) && |packets| > 0
    ensures Numbered(Advance(r, moves, packets).out, 0) <==> Numbered(r.out, 0) && UpToDate(r)
    ensures UpToDate(r) ==> (UpToDate(Advance(r, moves, packets)) <==> moves || |packets| % NUMBERS == 0)
  {
    if Numbered(r.out + packets, 0) {
      NumberedStart(r.out, packets, 0);
    }
    if Numbered(r.out, 0) {
      Continues(r.out, r.number, packets);
    }
    if UpToDate(r) {
      if moves {
        SameNumber(r.number, |r.out|, |packets|);
        SameNumber((r.number + |packets|) % WORDS, r.number + |packets|, 0);
      } else {
        Shifted(|r.out|, 0, |packets|);
      }
    }
  }

  lemma NumberedStart(a: seq<Bytes>, b: seq<Bytes>, first: nat)
    requires Numbered(a + b, first)
    ensures Numbered(a, first)
  {
    forall i | 0 <= i < |a|
      ensures |a[i]| >= HEADER_SIZE && Number(a[i]) == (first + i) % NUMBERS
    {
      assert a[i] == (a + b)[i];
    }
  }

  // Runs of frames x, of which send gives the packets from their first number and the frame number

  ghost function RunOf<X>(xs: seq<X>, send: (X, nat, nat) -> seq<Bytes>, moves: X -> bool): (r: Stream)
    ensures r.number < WORDS
  {
    if xs == [] then Stream(0, [])
    else
      var k := |xs| - 1;
      var r := RunOf(xs[..k], send, moves);
      Advance(r, moves(xs[k]), send(xs[k], r.number, k % WORDS))
  }

  lemma RunOfNext<X>(xs: seq<X>, send: (X, nat, nat) -> seq<Bytes>, moves: X -> bool, x: X, r: Stream,
                     packets: seq<Bytes>)
    requires r == RunOf(xs, send, moves) && packets == send(x, r.number, |xs| % WORDS)
    ensures RunOf(xs + [x], send, moves) == Advance(r, moves(x), packets)
  {
    assert (xs + [x])[..|xs|] == xs;
  }

  ghost predicate SendsNumbered<X(!new)>(send: (X, nat, nat) -> seq<Bytes>, x: X)
  {
    forall number: nat, frame: nat :: Numbered(send(x, number, frame), number)
  }

  lemma {:induction false} RunOfInStep<X(!new)>(xs: seq<X>, send: (X, nat, nat) -> seq<Bytes>, moves: X -> bool)
    requires forall i :: 0 <= i < |xs| ==> moves(xs[i]) && SendsNumbered(send, xs[i])
    ensures InStep(RunOf(xs, send, moves))
  {
    if xs != [] {
      var k := |xs| - 1;
      RunOfInStep(xs[..k], send, moves);
      var r := RunOf(xs[..k], send, moves);
      assert SendsNumbered(send, xs[k]);
      AdvanceKeepsStep(r, send(xs[k], r.number, k % WORDS));
    }
  }

  /** A frame is numbered from its first number on, and leaves the counter up to date if keeps says so. */
  ghost predicate SendsLike<X(!new)>(send: (X, nat, nat) -> seq<Bytes>, moves: X -> bool, keeps: X -> bool, x: X)
  {
    && SendsNumbered(send, x)
    && forall number: nat, frame: nat ::
         |send(x, number, frame)| > 0 && (keeps(x) <==> moves(x) || |send(x, number, frame)| % NUMBERS == 0)
  }

  /** A run is numbered if and only if every frame but the last leaves the counter up to date. */
  lemma {:induction false} RunOfStands<X(!new)>(xs: seq<X>, send: (X, nat, nat) -> seq<Bytes>,
                                                moves: X -> bool, keeps: X -> bool)
    requires forall i :: 0 <= i < |xs| ==> SendsLike(send, moves, keeps, xs[i])
    ensures Numbered(RunOf(xs, send, moves).out, 0) <==> forall i :: 0 <= i < |xs| - 1 ==> keeps(xs[i])
    ensures Numbered(RunOf(xs, send, moves).out, 0) ==>
              (UpToDate(RunOf(xs, send, moves)) <==> xs == [] || keeps(xs[|xs| - 1]))
  {
    if xs != [] {
      var k := |xs| - 1;
      RunOfStands(xs[..k], send, moves, keeps);
      var r := RunOf(xs[..k], send, moves);
      assert SendsLike(send, moves, keeps, xs[k]);
      AdvanceStands(r, moves(xs[k]), send(xs[k], r.number, k % WORDS));
    }
  }

  // Blocks

  /** The first k blocks of a sender; the number, of 32 bits, goes on behind each block. */
  ghost function Chain(sender: (nat, nat) -> seq<Bytes>, number: nat, k: nat): (out: seq<Bytes>)
  {
    if k == 0 then []
    else
      var before := Chain(sender, number, k - 1);
      before + sender((number + |before|) % WORDS, k - 1)
  }

  lemma ChainFirst(sender: (nat, nat) -> seq<Bytes>, number: nat)
    requires number < WORDS
    ensures Chain(sender, number, 1) == sender(number, 0)
  {
    assert Chain(sender, number, 0) == [] && number % WORDS == number;
    assert [] + sender(number, 0) == sender(number, 0);
  }

  lemma {:induction false} ChainStarts(sender: (nat, nat) -> seq<Bytes>, number: nat, j: nat, k: nat)
    requires j <= k
    ensures Chain(sender, number, j) <= Chain(sender, number, k)
  {
    if j < k {
      ChainStarts(sender, number, j, k - 1);
    }
  }

  lemma ChainHasBlock(sender: (nat, nat) -> seq<Bytes>, number: nat, k: nat, blocks: nat, block: seq<Bytes>)
    requires k < blocks && block == sender((number + |Chain(sender, number, k)|) % WORDS, k)
    ensures Chain(sender, number, k) + block <= Chain(sender, number, blocks)
  {
    ChainStarts(sender, number, k + 1, blocks);
  }

  lemma ChainNext(sender: (nat, nat) -> seq<Bytes>, first: nat, k: nat, out: seq<Bytes>, number: nat, block: seq<Bytes>)
    requires out == Chain(sender, first, k) && number == (first + |out|) % WORDS && block == sender(number, k)
    ensures Chain(sender, first, k + 1) == out + block
    ensures (number + |block|) % WORDS == (first + |out + block|) % WORDS
  {
  }

  /** Block k, sent after the packets before, keeps the invariant. */
  ghost predicate BlockKeeps(sender: (nat, nat) -> seq<Bytes>, number: nat, inv: (nat, seq<Bytes>) -> bool,
                             k: nat, before: seq<Bytes>)
  {
    inv(k, before) ==> inv(k + 1, before + sender((number + |before|) % WORDS, k))
  }

  /** What every block keeps, whatever was sent before it, holds after any number of blocks. */
  lemma {:induction false} ChainKeeps(sender: (nat, nat) -> seq<Bytes>, number: nat, blocks: nat,
                                      inv: (nat, seq<Bytes>) -> bool, k: nat)
    requires inv(0, []) && k <= blocks
    requires forall j: nat, before: seq<Bytes> :: j < blocks ==> BlockKeeps(sender, number, inv, j, before)
    ensures inv(k, Chain(sender, number, k))
  {
    if k > 0 {
      ChainKeeps(sender, number, blocks, inv, k - 1);
      assert BlockKeeps(sender, number, inv, k - 1, Chain(sender, number, k - 1));
    }
  }
}
