/** Encoding, losing shards, and decoding again. */
module RoundTrip {
  import opened Bits
  import opened ShiftMul
  import opened Gf256
  import opened Vectors
  import opened Elimination
  import opened Memory
  import opened Oblas
  import opened Shards
  import opened ErasureCode
  import opened LibraryMatrix
  import opened ReedSolomon

  /** What the shards hold when the marked ones have become garbage. */
  ghost predicate Damaged(now: seq<Row>, was: seq<Row>, marks: seq<u8>)
    requires |was| <= |marks|
  {
    |now| == |was| && forall i :: 0 <= i < |was| && marks[i] == 0 ==> now[i] == was[i]
  }

  lemma DamagedStillAgrees(m: Matrix, marks: seq<u8>, xs: seq<Row>, more: seq<Row>, now: seq<Row>, len: nat)
    requires ParityShape(m, |xs|) && Uniform(xs, len) && |xs| + |m| + |more| <= |marks|
    requires Damaged(now, xs + Encoded(m, xs, len) + more, marks)
    ensures Agrees(m, marks, now, xs, len)
  {
    var was := xs + Encoded(m, xs, len) + more;
    forall j | 0 <= j < |m| && marks[|xs| + j] == 0
      ensures now[|xs| + j] == Combine(m[j], xs, len)
    {
      assert was[|xs| + j] == Encoded(m, xs, len)[j];
    }
    forall i | 0 <= i < |xs| && marks[i] == 0
      ensures now[i] == xs[i]
    {
      assert was[i] == xs[i];
    }
  }

  /**
   Shards that were encoded and of which the marked ones were then damaged in any way: decoding
   returns 0 and gives back all the data exactly.
   */
  method DecodeDamaged(codec: Codec, marks: seq<u8>, shards: seq<Ptr>, bs: nat, ghost xs: seq<Row>,
                       ghost more: seq<Row>)
    returns (status: int)
    requires codec.Valid() && Laid(shards, bs) && codec.Separate(shards) && codec.ts <= |shards| <= |marks|
    requires codec.CanDecode(marks, |shards|) && EnoughSurvive(marks, codec.ds, codec.ps)
    requires |xs| == codec.ds && Uniform(xs, bs) && |xs| + codec.ps + |more| == |shards|
    requires Damaged(View(shards, bs), xs + Encoded(codec.matrix, xs, bs) + more, marks)
    modifies codec.p, Buffers(shards)
    ensures codec.Valid() && status == 0
    ensures View(shards, bs)[..codec.ds] == xs
  {
    ghost var now := View(shards, bs);
    DamagedStillAgrees(codec.matrix, marks, xs, more, now, bs);
    RepairRestoresData(codec.matrix, marks, now, xs, bs);
    status := codec.Decode(marks, shards, bs);
    assert (xs + now[codec.ds..])[..codec.ds] == xs;
  }

  /** Every marked shard is overwritten with garbage. */
  method Erase(shards: seq<Ptr>, bs: nat, marks: seq<u8>, garbage: seq<Row>)
    requires Laid(shards, bs) && |shards| <= |marks| && |garbage| == |shards| && Uniform(garbage, bs)
    modifies Buffers(shards)
    ensures Damaged(View(shards, bs), old(View(shards, bs)), marks)
  {
    ghost var was := View(shards, bs);
    for i := 0 to |shards|
      invariant Damaged(View(shards, bs), was, marks)
    {
      if marks[i] != 0 {
        EraseOne(shards, bs, i, garbage[i]);
      }
    }
  }

  method EraseOne(shards: seq<Ptr>, bs: nat, i: nat, t: Row)
    requires Laid(shards, bs) && i < |shards| && |t| == bs
    modifies shards[i].buf
    ensures View(shards, bs) == old(View(shards, bs))[i := t]
  {
    ghost var v, was := View(shards, bs), shards[i].buf[..];
    Store(shards[i], t);
    forall k | 0 <= k < |shards|
      ensures shards[k].Bytes(bs) == if k == i then t else v[k]
    {
      if shards[k].buf == shards[i].buf {
        WroteShard(shards, bs, i, k, was, t);
      }
    }
  }

  /**
   The round trip: encode, overwrite the marked shards with anything, decode.  The data comes
   back whenever no more data shards are lost than parity shards survive.
   */
  method EncodeEraseDecode(codec: Codec, marks: seq<u8>, shards: seq<Ptr>, bs: nat, garbage: seq<Row>)
    returns (status: int)
    requires codec.Valid() && Laid(shards, bs) && codec.Separate(shards) && codec.ts <= |shards| <= |marks|
    requires codec.CanDecode(marks, |shards|) && EnoughSurvive(marks, codec.ds, codec.ps)
    requires |garbage| == |shards| && Uniform(garbage, bs)
    modifies codec.p, Buffers(shards)
    ensures codec.Valid() && status == 0
    ensures View(shards, bs)[..codec.ds] == old(View(shards, bs))[..codec.ds]
  {
    ghost var xs, more := View(shards, bs)[..codec.ds], View(shards, bs)[codec.ts..];
    status := codec.Encode(shards, bs);
    assert View(shards, bs) == xs + Encoded(codec.matrix, xs, bs) + more;
    Erase(shards, bs, marks, garbage);
    status := DecodeDamaged(codec, marks, shards, bs, xs, more);
  }

  // Room behind the matrix

  /** All of the data of a square codec of more than one shard is lost. */
  ghost predicate AllOfSquare(marks: seq<u8>, ds: nat, ps: nat)
    requires ds <= |marks|
  {
    ds == ps == |Erased(marks, ds)| && ds > 1
  }

  /** A codec as New makes it. */
  ghost predicate FromNew(codec: Codec)
    reads codec, codec.p
  {
    && codec.Valid() && codec.matrix == CauchyParity(codec.ds, codec.ps)
    && codec.p.Length == 2 * (codec.ps * codec.ds)
  }

  /**
   What a codec of the library asks for when enough shards survive: that not all of the data is
   lost and the numbers of data and parity shards equal, unless they are one.  Otherwise the
   elimination does not fit behind the matrix.
   */
  lemma RoomForEveryLoss(codec: Codec, marks: seq<u8>, n: nat)
    requires FromNew(codec) && codec.ts <= n && codec.ts <= |marks|
    requires EnoughSurvive(marks, codec.ds, codec.ps)
    ensures codec.CanDecode(marks, n) <==> !AllOfSquare(marks, codec.ds, codec.ps)
  {
    assert CorrectsAllLosses(codec.matrix, codec.ds) by {
      CauchyCorrectsAllLosses(codec.ds, codec.ps);
    }
    ErasedCount(marks, codec.ds, codec.ps);
    RoomIs(codec.ds, codec.ps, |Erased(marks, codec.ds)|);
  }

  lemma ErasedCount(marks: seq<u8>, ds: nat, ps: nat)
    requires ds + ps <= |marks| && EnoughSurvive(marks, ds, ps)
    ensures |Erased(marks, ds)| <= ds && |Erased(marks, ds)| <= ps
  {
    IndicesCount(marks, 0, ds);
    IndicesCount(marks, ds, ds + ps);
  }

  lemma RoomIs(ds: nat, ps: nat, w: nat)
    requires 0 < ds && 0 < ps && w <= ds && w <= ps
    ensures ps * ds + w * w + w <= 2 * (ps * ds) + 1 <==> !(ds == ps == w && ds > 1)
  {
    var small, large := if ds < ps then ds else ps, if ds < ps then ps else ds;
    assert ps * ds == small * large;
    if w < large {
      SquareFits(w, small, large);
    }
  }

  lemma SquareFits(w: nat, small: nat, large: nat)
    requires w <= small && w < large
    ensures w * w + w <= small * large
  {
    ProductGrows(w, small - w, w + 1);
    ProductGrows(w + 1, large - w - 1, small);
    assert (w + 1) * w == w * w + w;
    assert (w + 1) * w <= (w + 1) * small;
    assert (w + 1) * small <= large * small;
  }

  /** Two data shards with two of parity, the data lost: parity enough, but no room. */
  lemma NoRoomForTwo(codec: Codec)
    requires FromNew(codec) && codec.ds == codec.ps == 2
    ensures EnoughSurvive([1, 1, 0, 0], 2, 2) && !codec.CanDecode([1, 1, 0, 0], 4)
  {
    LossesAllowed([1, 1, 0, 0], 2, 2);
    assert Erased([1, 1, 0, 0], 2) == [0, 1];
    RoomForEveryLoss(codec, [1, 1, 0, 0], 4);
  }

  /** Byte t of data shard i is one, and that of every other data shard zero. */
  ghost predicate OneAt(v: seq<Row>, ds: nat, i: nat, t: nat)
    requires ds <= |v|
  {
    forall k :: 0 <= k < ds ==> t < |v[k]| && v[k][t] == if k == i then 1 else 0
  }

  /** Byte t of parity shard j is the inverse of ps + i with j exclusively or-ed into it. */
  ghost predicate InverseAt(v: seq<Row>, ds: nat, ps: nat, i: nat, j: nat, t: nat)
    requires ds + ps <= |v| && ds + ps <= 255 && i < ds && j < ps
  {
    t < |v[ds + j]| && Mul(v[ds + j][t], XorByte(ps + i, j)) == 1
  }

  /** Encoding with a codec from the library: data shards stay, and where one alone is one the parity is as above. */
  method LibraryEncode(isa: Isa, ds: int, ps: int, shards: seq<Ptr>, bs: nat) returns (status: int)
    requires 0 < ds && 0 < ps && ds + ps <= 255 && ds + ps <= |shards| && Laid(shards, bs)
    modifies Buffers(shards)
    ensures status == 0 && View(shards, bs)[..ds] == old(View(shards, bs))[..ds]
    ensures forall i: nat, j: nat, t: nat :: i < ds && j < ps && t < bs && OneAt(View(shards, bs), ds, i, t) ==>
              InverseAt(View(shards, bs), ds, ps, i, j, t)
  {
    var codec := Codec.New(isa, ds, ps);
    ghost var was := View(shards, bs);
    status := codec.Encode(shards, bs);
    ParityOfOnes(ds, ps, was, View(shards, bs), bs);
  }

  lemma ParityOfOnes(ds: nat, ps: nat, was: seq<Row>, now: seq<Row>, len: nat)
    requires 0 < ds && 0 < ps && ds + ps <= 255 && ds + ps <= |was| && Uniform(was, len)
    requires now == was[..ds] + Encoded(CauchyParity(ds, ps), was[..ds], len) + was[ds + ps..]
    ensures now[..ds] == was[..ds]
    ensures forall i: nat, j: nat, t: nat :: i < ds && j < ps && t < len && OneAt(now, ds, i, t) ==>
              InverseAt(now, ds, ps, i, j, t)
  {
    forall i: nat, j: nat, t: nat | i < ds && j < ps && t < len && OneAt(now, ds, i, t)
      ensures InverseAt(now, ds, ps, i, j, t)
    {
      assert now[ds + j] == Encoded(CauchyParity(ds, ps), was[..ds], len)[j];
      forall k | 0 <= k < ds
        ensures was[..ds][k][t] == if k == i then 1 else 0
      {
        assert now[k] == was[..ds][k];
      }
      ParityOfOne(ds, ps, was[..ds], len, i, j, t);
    }
  }

  /**
   The round trip with a codec from the library: for any counts up to 255 in all, any content, any
   shards and any marks that leave enough parity, but not all of the data of a square codec.
   */
  method LibraryRoundTrip(isa: Isa, ds: int, ps: int, marks: seq<u8>, shards: seq<Ptr>, bs: nat, garbage: seq<Row>)
    returns (status: int)
    requires 0 < ds && 0 < ps && ds + ps <= 255 && ds + ps <= |shards| <= |marks|
    requires EnoughSurvive(marks, ds, ps) && !AllOfSquare(marks, ds, ps)
    requires Laid(shards, bs) && |garbage| == |shards| && Uniform(garbage, bs)
    modifies Buffers(shards)
    ensures status == 0 && View(shards, bs)[..ds] == old(View(shards, bs))[..ds]
  {
    var codec := Codec.New(isa, ds, ps);
    RoomForEveryLoss(codec, marks, |shards|);
    status := EncodeEraseDecode(codec, marks, shards, bs, garbage);
  }
}
