/** The shards a caller passes: pointers to stretches of the same length that do not overlap. */
module Shards {
  import opened Bits
  import opened Vectors
  import opened Memory
  import opened Oblas

  ghost function Buffers(shards: seq<Ptr>): set<array<u8>>
  {
    set p | p in shards :: p.buf
  }

  ghost predicate Laid(shards: seq<Ptr>, len: nat)
  {
    && (forall i :: 0 <= i < |shards| ==> shards[i].Has(len))
    && (forall i, j :: 0 <= i < j < |shards| ==> shards[i].ApartFrom(shards[j], len))
  }

  lemma LaidApart(shards: seq<Ptr>, len: nat, i: nat, j: nat)
    requires Laid(shards, len) && i < |shards| && j < |shards| && i != j
    ensures shards[i].ApartFrom(shards[j], len)
  {
    assert shards[if i < j then i else j].ApartFrom(shards[if i < j then j else i], len);
  }

  /** The contents of the shards. */
  ghost function View(shards: seq<Ptr>, len: nat): (v: seq<Row>)
    requires Laid(shards, len)
    reads Buffers(shards)
    ensures |v| == |shards| && Uniform(v, len)
    ensures forall i :: 0 <= i < |v| ==> v[i] == shards[i].Bytes(len)
  {
    seq(|shards|, i requires 0 <= i < |shards| reads Buffers(shards) => shards[i].Bytes(len))
  }

  /** After writing t at shard i of buffer was, shard k of that buffer is t or what it was. */
  lemma WroteShard(shards: seq<Ptr>, len: nat, i: nat, k: nat, was: seq<u8>, t: Row)
    requires Laid(shards, len) && i < |shards| && k < |shards| && |t| == len
    requires shards[i].buf == shards[k].buf && |was| == shards[i].buf.Length
    requires shards[i].buf[..] == Splice(was, shards[i].off, t)
    ensures shards[k].Bytes(len) == if k == i then t else was[shards[k].off..shards[k].off + len]
  {
    if k != i {
      LaidApart(shards, len, i, k);
    }
    SpliceAt(was, shards[i].off, t, shards[k].off, len);
  }

  method ShardAxpy(isa: Isa, shards: seq<Ptr>, i: nat, j: nat, u: u8, len: nat)
    requires Laid(shards, len) && i < |shards| && j < |shards| && i != j
    modifies shards[i].buf
    ensures View(shards, len)
             == old(View(shards, len))[i := AddScaled(old(View(shards, len)[i]), old(View(shards, len)[j]), u)]
  {
    ghost var v, was := View(shards, len), shards[i].buf[..];
    LaidApart(shards, len, i, j);
    ghost var t := AddScaled(shards[i].Bytes(len), shards[j].Bytes(len), u);
    Axpy(isa, shards[i], shards[j], u, len);
    forall k | 0 <= k < |shards|
      ensures shards[k].Bytes(len) == if k == i then t else v[k]
    {
      if shards[k].buf == shards[i].buf {
        WroteShard(shards, len, i, k, was, t);
      }
    }
  }

  method ShardScal(isa: Isa, shards: seq<Ptr>, i: nat, u: u8, len: nat)
    requires Laid(shards, len) && i < |shards| && u != 0
    modifies shards[i].buf
    ensures View(shards, len) == old(View(shards, len))[i := Scale(old(View(shards, len)[i]), u)]
  {
    ghost var v, was := View(shards, len), shards[i].buf[..];
    ghost var t := Scale(shards[i].Bytes(len), u);
    Scal(isa, shards[i], u, len);
    forall k | 0 <= k < |shards|
      ensures shards[k].Bytes(len) == if k == i then t else v[k]
    {
      if shards[k].buf == shards[i].buf {
        WroteShard(shards, len, i, k, was, t);
      }
    }
  }

  method ShardCopy(shards: seq<Ptr>, i: nat, j: nat, len: nat)
    requires Laid(shards, len) && i < |shards| && j < |shards|
    modifies shards[i].buf
    ensures View(shards, len) == old(View(shards, len))[i := old(View(shards, len)[j])]
  {
    ghost var v, was := View(shards, len), shards[i].buf[..];
    ghost var t := shards[j].Bytes(len);
    Store(shards[i], shards[j].buf[shards[j].off..shards[j].off + len]);
    forall k | 0 <= k < |shards|
      ensures shards[k].Bytes(len) == if k == i then t else v[k]
    {
      if shards[k].buf == shards[i].buf {
        WroteShard(shards, len, i, k, was, t);
      }
    }
  }

  method ShardClear(shards: seq<Ptr>, i: nat, len: nat)
    requires Laid(shards, len) && i < |shards|
    modifies shards[i].buf
    ensures View(shards, len) == old(View(shards, len))[i := Zeros(len)]
  {
    ghost var v, was := View(shards, len), shards[i].buf[..];
    var zeros := Zeros(len);
    Store(shards[i], zeros);
    forall k | 0 <= k < |shards|
      ensures shards[k].Bytes(len) == if k == i then zeros else v[k]
    {
      if shards[k].buf == shards[i].buf {
        WroteShard(shards, len, i, k, was, zeros);
      }
    }
  }
}
