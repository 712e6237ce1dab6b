/** The library's codec: a parity matrix in memory, encoding, and decoding in place. */
module ReedSolomon {
  import opened Bits
  import opened ShiftMul
  import opened Gf256
  import opened Inverses
  import opened Vectors
  import opened Elimination
  import opened Memory
  import opened Oblas
  import opened Shards
  import opened ErasureCode
  import opened LibraryMatrix
  import FlatRows
  import GfTables

  const MAX_SHARDS := 255
  const HEADER_SIZE := 12  // three 32-bit counts before the matrix

  /** The inverse table as a lookup. */
  method Inverse(x: u8) returns (r: u8)
    ensures r == Inv(x)
  {
    TableOfInverses(x);
    r := GfTables.InvTable(x);
  }

  function BufferSize(ds: int, ps: int): int
  {
    HEADER_SIZE + 2 * (ps * ds)
  }

  /** The first rows of the shards after the data are those of enc, for 0, 1, 2, ... rows. */
  ghost function ParityStates(v: seq<Row>, ds: nat, enc: seq<Row>): (ws: seq<seq<Row>>)
    requires ds + |enc| <= |v|
    ensures |ws| == |enc| + 1 && ws[0] == v && ws[|enc|] == v[..ds] + enc + v[ds + |enc|..]
  {
    seq(|enc| + 1, row requires 0 <= row <= |enc| => v[..ds] + enc[..row] + v[ds + row..])
  }

  /** Computing parity row row leads from the shards with that number to the next. */
  ghost predicate ParityAt(ws: seq<seq<Row>>, m: Matrix, v: seq<Row>, ds: nat, len: nat, row: nat)
    requires ParityShape(m, ds) && Uniform(v, len)
  {
    && row + 1 < |ws| && row < |m| && |ws[row]| == |v| && ds + row < |v| && ws[row][..ds] == v[..ds]
    && ws[row + 1] == ws[row][ds + row := Combine(m[row], v[..ds], len)]
  }

  lemma NextParity(m: Matrix, v: seq<Row>, ds: nat, len: nat, row: nat)
    requires ParityShape(m, ds) && Uniform(v, len) && row < |m| && ds + |m| <= |v|
    ensures ParityAt(ParityStates(v, ds, Encoded(m, v[..ds], len)), m, v, ds, len, row)
  {
    var enc := Encoded(m, v[..ds], len);
    assert (v[..ds] + enc[..row] + v[ds + row..])[ds + row := enc[row]]
        == v[..ds] + enc[..row + 1] + v[ds + row + 1..];
  }

  lemma EveryParity(m: Matrix, v: seq<Row>, ds: nat, len: nat, ws: seq<seq<Row>>)
    requires ParityShape(m, ds) && Uniform(v, len) && ds + |m| <= |v|
    requires ws == ParityStates(v, ds, Encoded(m, v[..ds], len))
    ensures |ws| == |m| + 1 && ws[0] == v && ws[|m|] == v[..ds] + Encoded(m, v[..ds], len) + v[ds + |m|..]
    ensures forall row :: 0 <= row < |m| ==> ParityAt(ws, m, v, ds, len, row)
  {
    forall row | 0 <= row < |m|
      ensures ParityAt(ws, m, v, ds, len, row)
    {
      NextParity(m, v, ds, len, row);
    }
  }

  lemma OneMoreByte(f: seq<u8>, r: Row, j: nat)
    requires j < |r|
    ensures f + r[..j] + [r[j]] == f + r[..j + 1]
  {
  }

  lemma ColumnsSplit(c: seq<nat>, kept: seq<nat>, e: seq<nat>)
    requires c == kept + e
    ensures c[..|kept|] == kept && c[|kept|..] == e
  {
  }

  /** Each sum is the one before with the next shard added. */
  ghost predicate SumStep(sums: seq<Row>, r: Row, start: seq<Row>, v: seq<Row>, idx: nat)
  {
    && idx + 1 < |sums| && idx < |r| && idx < |v| && idx < |start| && start[idx] == v[idx]
    && |sums[idx]| == |v[idx]| && sums[idx + 1] == AddScaled(sums[idx], v[idx], r[idx])
  }

  /** The sums of the first 0, 1, 2, ... products. */
  ghost function Sums(r: Row, v: seq<Row>, len: nat): (sums: seq<Row>)
    requires |r| <= |v| && Uniform(v, len)
    ensures |sums| == |r| + 1 && forall idx :: 0 <= idx <= |r| ==> sums[idx] == CombineFirst(r, v, idx, len)
  {
    seq(|r| + 1, idx requires 0 <= idx <= |r| => CombineFirst(r, v, idx, len))
  }

  lemma SumsStep(r: Row, start: seq<Row>, v: seq<Row>, len: nat)
    requires |r| <= |v| && Uniform(v, len) && |r| <= |start| && forall idx :: 0 <= idx < |r| ==> start[idx] == v[idx]
    ensures Sums(r, v, len)[0] == Zeros(len)
    ensures forall idx :: 0 <= idx < |r| ==> SumStep(Sums(r, v, len), r, start, v, idx)
  {
    CombineNone(r, v, len);
    forall idx | 0 <= idx < |r|
      ensures SumStep(Sums(r, v, len), r, start, v, idx)
    {
      CombineNext(r, v, idx, len);
    }
  }

  /** The erased shards while the first 0, 1, 2, ... kept shards are taken out of number i. */
  ghost function Taking(r: Row, kept: seq<nat>, v: seq<Row>, ys: seq<Row>, i: nat): (ss: seq<seq<Row>>)
    requires i < |ys| && Uniform(v, |ys[i]|) && forall k :: 0 <= k < |kept| ==> kept[k] < |r| && kept[k] < |v|
    ensures |ss| == |kept| + 1 && ss[0] == ys && ss[|kept|] == ys[i := Residual(r, kept, v, ys[i], |kept|)]
    ensures forall k :: 0 <= k <= |kept| ==> ss[k] == ys[i := Residual(r, kept, v, ys[i], k)]
  {
    seq(|kept| + 1, k requires 0 <= k <= |kept| => ys[i := Residual(r, kept, v, ys[i], k)])
  }

  /** Each is the one before with one more kept shard taken out. */
  ghost predicate TakesOut(ss: seq<seq<Row>>, r: Row, kept: seq<nat>, e: seq<nat>, v: seq<Row>, i: nat, k: nat)
  {
    && k + 1 < |ss| && k < |kept| && kept[k] < |r| && kept[k] < |v| && kept[k] !in e
    && i < |ss[k]| && |ss[k][i]| == |v[kept[k]]|
    && ss[k + 1] == ss[k][i := AddScaled(ss[k][i], v[kept[k]], r[kept[k]])]
  }

  /** Taking the kept shards out of number i leads from the erased shards with that number to the next. */
  ghost predicate RowTaken(ms: seq<seq<Row>>, m: Matrix, d: seq<nat>, kept: seq<nat>, e: seq<nat>, v: seq<Row>,
                           len: nat, i: nat)
  {
    && i + 1 < |ms| && i < |d| && d[i] < |m| && i < |ms[i]| && |ms[i][i]| == len && Uniform(v, len)
    && (forall k :: 0 <= k < |kept| ==> kept[k] < |m[d[i]]| && kept[k] < |v| && kept[k] !in e)
    && ms[i + 1] == ms[i][i := Residual(m[d[i]], kept, v, ms[i][i], |kept|)]
  }

  lemma NextTaken(m: Matrix, d: seq<nat>, kept: seq<nat>, e: seq<nat>, v: seq<Row>, ys: seq<Row>, ds: nat, len: nat,
                  i: nat)
    requires ParityShape(m, ds) && ds <= |v| && Uniform(v, len) && |ys| == |d| && Uniform(ys, len) && i < |d|
    requires forall k :: 0 <= k < |d| ==> d[k] < |m|
    requires forall k :: 0 <= k < |kept| ==> kept[k] < ds && kept[k] !in e
    ensures RowTaken(Mixes(TakenOut(m, d, kept, v, ys, ds, len), ys), m, d, kept, e, v, len, i)
  {
    var zs := TakenOut(m, d, kept, v, ys, ds, len);
    assert (zs[..i] + ys[i..])[i := zs[i]] == zs[..i + 1] + ys[i + 1..];
  }

  lemma TakingSteps(r: Row, kept: seq<nat>, e: seq<nat>, v: seq<Row>, ys: seq<Row>, i: nat, len: nat)
    requires i < |ys| && |ys[i]| == len && Uniform(v, len)
    requires forall k :: 0 <= k < |kept| ==> kept[k] < |r| && kept[k] < |v| && kept[k] !in e
    ensures forall k :: 0 <= k < |kept| ==> TakesOut(Taking(r, kept, v, ys, i), r, kept, e, v, i, k)
  {
    forall k | 0 <= k < |kept|
      ensures TakesOut(Taking(r, kept, v, ys, i), r, kept, e, v, i, k)
    {
      ReplaceTwice(ys, i, Residual(r, kept, v, ys[i], k), Residual(r, kept, v, ys[i], k + 1));
    }
  }

  /** Copying ends with all erased shards exactly when enough survive, and then it used the first rows. */
  lemma CopiesEnd(marks: seq<u8>, ds: nat, ps: nat, i: nat)
    requires ds + ps <= |marks| && i <= |Erased(marks, ds)| && i <= |ParityRows(marks, ds, ps)|
    requires i == |Erased(marks, ds)| || i == |ParityRows(marks, ds, ps)|
    ensures i == |Erased(marks, ds)| <==> EnoughSurvive(marks, ds, ps)
    ensures i == |Erased(marks, ds)| ==>
              ParityRows(marks, ds, ps)[..i] == UsedRows(marks, ds, ps) && Erased(marks, ds)[..i] == Erased(marks, ds)
  {
  }

  lemma ScatterOthers(v: seq<Row>, e: seq<nat>, n: nat, ys: seq<Row>)
    requires n <= |e| && n == |ys|
    ensures forall k :: 0 <= k < |v| && k !in e ==> Scatter(v, e[..n], ys)[k] == v[k]
  {
  }

  lemma RepairedOthers(m: Matrix, marks: seq<u8>, v: seq<Row>, ds: nat, len: nat)
    requires ParityShape(m, ds) && ds + |m| <= |v| && ds + |m| <= |marks| && Uniform(v, len)
    requires EnoughSurvive(marks, ds, |m|)
    ensures forall k :: 0 <= k < |v| && k !in Erased(marks, ds) ==> Repaired(m, marks, v, ds, len)[k] == v[k]
  {
  }

  // The search for the next surviving parity shard

  ghost predicate StopsAt(marks: seq<u8>, ts: nat, n: nat)
  {
    ts <= n < |marks| && marks[n] == 0 && forall j :: ts <= j < n ==> marks[j] != 0
  }

  /** The search has come to shard j and passed i surviving parity shards, in all or before this search. */
  ghost predicate Scanning(marks: seq<u8>, ds: nat, ps: nat, n: nat, j: nat, i: nat)
  {
    && ds <= j <= n && j < |marks| && ds + ps <= n && ds + ps <= |marks|
    && (j <= ds + ps ==> |Indices(marks, ds, j, false)| == i)
    && (j >= ds + ps ==> i == |ParityRows(marks, ds, ps)|)
    && (i < |ParityRows(marks, ds, ps)| || StopsAt(marks, ds + ps, n))
  }

  lemma ScanStarts(marks: seq<u8>, ds: nat, ps: nat, n: nat, j: nat, i: nat)
    requires ds <= j <= ds + ps <= n && ds + ps <= |marks| && |Indices(marks, ds, j, false)| == i
    requires i < |ParityRows(marks, ds, ps)| || StopsAt(marks, ds + ps, n)
    ensures Scanning(marks, ds, ps, n, j, i)
  {
    ParityAhead(marks, ds, ds + ps, j, i);
  }

  lemma ScanGoesOn(marks: seq<u8>, ds: nat, ps: nat, n: nat, j: nat, i: nat)
    requires Scanning(marks, ds, ps, n, j, i) && marks[j] != 0
    ensures j < n && Scanning(marks, ds, ps, n, j + 1, i)
  {
    if j < ds + ps {
      ParityAhead(marks, ds, ds + ps, j + 1, i);
    }
  }

  lemma ScanEnds(marks: seq<u8>, ds: nat, ps: nat, n: nat, j: nat, i: nat)
    requires Scanning(marks, ds, ps, n, j, i) && marks[j] == 0
    ensures j < ds + ps || j == n
    ensures j < ds + ps ==> |Indices(marks, ds, j + 1, false)| == i + 1
    ensures j < ds + ps ==> i < |ParityRows(marks, ds, ps)| && ParityRows(marks, ds, ps)[i] == j - ds
    ensures j >= ds + ps ==> i == |ParityRows(marks, ds, ps)|
  {
    if j < ds + ps {
      IndicesPrefix(marks, ds, j + 1, ds + ps, false);
      assert Indices(marks, ds, j + 1, false)[i] == j;
    }
  }

  /** The entry for row j and column i in the buffer is the inverse of ps + i with j exclusively or-ed into it. */
  ghost predicate EntryIs(p: seq<u8>, ds: nat, ps: nat, i: nat, j: nat)
  {
    0 <= j * ds + i < |p| && ps + i < 256 && j < 256 && Mul(p[j * ds + i], XorByte(ps + i, j)) == 1
  }

  lemma EntriesAre(p: seq<u8>, ds: nat, ps: nat)
    requires ds + ps <= 255 && FlatRows.Holds(p, CauchyParity(ds, ps), ds)
    ensures forall i: nat, j: nat :: i < ds && j < ps ==> EntryIs(p, ds, ps, i, j)
  {
    forall i: nat, j: nat | i < ds && j < ps
      ensures EntryIs(p, ds, ps, i, j)
    {
      FlatRows.CellInBuffer(p, CauchyParity(ds, ps), ds, j, i);
      CauchyEntry(ds, ps, i, j);
    }
  }

  class Codec {
    const isa: Isa
    const ds: nat
    const ps: nat
    const ts: nat
    const p: array<u8>
    ghost var matrix: Matrix

    /** The start of the work area behind the matrix. */
    function WorkArea(): nat
    {
      ps * ds
    }

    ghost predicate Valid()
      reads this, p
    {
      && 0 < ds && 0 < ps && ts == ds + ps <= MAX_SHARDS
      && |matrix| == ps && ParityShape(matrix, ds) && FlatRows.Holds(p[..], matrix, ds)
      && 2 * (ps * ds) <= p.Length
    }

    /** A buffer for the codec that no shard lies in. */
    ghost predicate Separate(shards: seq<Ptr>)
    {
      p !in Buffers(shards)
    }

    constructor Create(isa: Isa, length: nat, ds: nat, ps: nat)
      requires 0 < ds && 0 < ps && ds + ps <= MAX_SHARDS && 2 * (ps * ds) <= length
      ensures Valid() && fresh(p) && p.Length == length
      ensures this.isa == isa && this.ds == ds && this.ps == ps && matrix == CauchyParity(ds, ps)
    {
      this.isa, this.ds, this.ps, this.ts := isa, ds, ps, ds + ps;
      p := new u8[length](_ => 0);
      matrix := CauchyParity(ds, ps);
      new;
      for j := 0 to ps
        invariant matrix == CauchyParity(ds, ps)
        invariant FlatRows.StartsWith(p[..], 0, FlatRows.Flat(matrix, 0, j))
      {
        FlatRows.RowStarts(matrix, ds, j);
        FlatRows.ProductStep(j, ps, ds);
        CauchyRowAt(j, j * ds);
      }
      var f := FlatRows.Flat(matrix, 0, ps);
      assert f == p[..][..|f|];
    }

    // Row j of the matrix, which starts at off, is written.
    method CauchyRowAt(j: nat, off: nat)
      requires ds + ps <= MAX_SHARDS && matrix == CauchyParity(ds, ps) && j < ps
      requires off == FlatRows.RowStart(matrix, j) && off + ds <= p.Length
      requires FlatRows.StartsWith(p[..], 0, FlatRows.Flat(matrix, 0, j))
      modifies p
      ensures FlatRows.StartsWith(p[..], 0, FlatRows.Flat(matrix, 0, j + 1))
    {
      ghost var f := FlatRows.Flat(matrix, 0, j);
      for i := 0 to ds
        invariant FlatRows.StartsWith(p[..], 0, f + matrix[j][..i])
      {
        CauchyByteAt(j, i, off + i, f + matrix[j][..i]);
        OneMoreByte(f, matrix[j], i);
      }
      assert matrix[j][..ds] == matrix[j];
    }

    method CauchyByteAt(j: nat, i: nat, at: nat, ghost before: seq<u8>)
      requires ds + ps <= MAX_SHARDS && matrix == CauchyParity(ds, ps) && j < ps && i < ds
      requires at == |before| < p.Length && FlatRows.StartsWith(p[..], 0, before)
      modifies p
      ensures FlatRows.StartsWith(p[..], 0, before + [matrix[j][i]])
    {
      AddDefinition(ps + i, j);
      var u := Inverse(XorByte(ps + i, j));
      FlatRows.ByteWritten(p[..], before, at, u);
      p[at] := u;
    }

    // A codec in a buffer of len bytes, or none when the counts or the length do not fit.
    static method NewStatic(isa: Isa, len: nat, ds: int, ps: int) returns (rs: Codec?)
      ensures rs == null <==> ds + ps > 255 || ds <= 0 || ps <= 0 || len < 12 + 2 * (ps * ds)
      ensures rs != null ==>
                && fresh(rs) && fresh(rs.p) && rs.Valid() && rs.isa == isa && rs.ds == ds && rs.ps == ps
                && rs.matrix == CauchyParity(ds, ps) && 12 + rs.p.Length == len
      ensures rs != null ==> forall i: nat, j: nat :: i < ds && j < ps ==> EntryIs(rs.p[..], ds, ps, i, j)
    {
      if ds + ps > MAX_SHARDS || ds <= 0 || ps <= 0 {
        return null;
      }
      if len < BufferSize(ds, ps) {
        return null;
      }
      rs := new Codec.Create(isa, len - HEADER_SIZE, ds, ps);
      EntriesAre(rs.p[..], ds, ps);
    }

    static method New(isa: Isa, ds: int, ps: int) returns (rs: Codec?)
      ensures rs == null <==> ds + ps > 255 || ds <= 0 || ps <= 0
      ensures rs != null ==>
                && fresh(rs) && fresh(rs.p) && rs.Valid() && rs.isa == isa && rs.ds == ds && rs.ps == ps
                && rs.matrix == CauchyParity(ds, ps) && rs.p.Length == 2 * (ps * ds)
      ensures rs != null ==> forall i: nat, j: nat :: i < ds && j < ps ==> EntryIs(rs.p[..], ds, ps, i, j)
    {
      if ds <= 0 || ps <= 0 {
        return null;
      }
      rs := NewStatic(isa, BufferSize(ds, ps), ds, ps);
    }

    // Other bytes are copied over the matrix.
    method SetMatrix(bytes: seq<u8>, ghost m: Matrix)
      requires Valid() && |m| == ps && ParityShape(m, ds) && bytes == FlatRows.Flat(m, 0, ps)
      modifies this`matrix, p
      ensures Valid() && matrix == m
    {
      FlatRows.RowStarts(matrix, ds, ps);
      FlatRows.RowStarts(m, ds, ps);
      forall i | 0 <= i < |bytes| {
        p[i] := bytes[i];
      }
      matrix := m;
      assert bytes == p[..][..|bytes|];
    }

    // One coefficient of the matrix.
    method Coefficient(row: nat, col: nat) returns (u: u8)
      requires Valid() && row < ps && col < ds
      ensures u == matrix[row][col]
    {
      FlatRows.CellInBuffer(p[..], matrix, ds, row, col);
      u := p[row * ds + col];
    }

    // The parity shards become the products of the matrix rows with the data shards.
    method Gemm(shards: seq<Ptr>, bs: nat)
      requires Valid() && |shards| >= ts && Laid(shards, bs) && Separate(shards)
      modifies Buffers(shards)
      ensures Valid()
      ensures var v := old(View(shards, bs));
              View(shards, bs) == v[..ds] + Encoded(matrix, v[..ds], bs) + v[ts..]
    {
      ghost var v := View(shards, bs);
      ghost var enc := Encoded(matrix, v[..ds], bs);
      ghost var ws := ParityStates(v, ds, enc);
      assert |ws| == ps + 1 && ws[0] == v && ws[ps] == v[..ds] + enc + v[ts..]
          && forall row :: 0 <= row < ps ==> ParityAt(ws, matrix, v, ds, bs, row) by {
        EveryParity(matrix, v, ds, bs, ws);
      }
      EachParityRow(shards, bs, v, ws);
    }

    // The shards go through ws.
    method EachParityRow(shards: seq<Ptr>, bs: nat, ghost v: seq<Row>, ghost ws: seq<seq<Row>>)
      requires Valid() && |shards| >= ts && Laid(shards, bs) && Separate(shards)
      requires |v| == |shards| && Uniform(v, bs) && |ws| == ps + 1 && View(shards, bs) == ws[0]
      requires forall row :: 0 <= row < ps ==> ParityAt(ws, matrix, v, ds, bs, row)
      modifies Buffers(shards)
      ensures Valid() && View(shards, bs) == ws[ps]
    {
      for row := 0 to ps
        invariant Valid() && View(shards, bs) == ws[row]
      {
        assert ParityAt(ws, matrix, v, ds, bs, row);
        ParityRow(shards, bs, row, v);
      }
    }

    method ParityRow(shards: seq<Ptr>, bs: nat, row: nat, ghost v: seq<Row>)
      requires Valid() && |shards| >= ts && Laid(shards, bs) && Separate(shards) && row < ps
      requires |v| == |shards| && Uniform(v, bs) && View(shards, bs)[..ds] == v[..ds]
      modifies Buffers(shards)
      ensures Valid()
      ensures View(shards, bs) == old(View(shards, bs))[ds + row := Combine(matrix[row], v[..ds], bs)]
    {
      ghost var start := View(shards, bs);
      forall idx | 0 <= idx < ds
        ensures start[idx] == v[idx]
      {
        assert start[idx] == start[..ds][idx] == v[..ds][idx];
      }
      ShardClear(shards, ds + row, bs);
      SumsStep(matrix[row], start, v, bs);
      SumRow(shards, bs, row, start, v, Sums(matrix[row], v, bs));
      CombineAll(matrix[row], v[..ds], v, bs);
    }

    // The sums are what parity shard row holds after each data shard.
    method SumRow(shards: seq<Ptr>, bs: nat, row: nat, ghost start: seq<Row>, ghost v: seq<Row>, ghost sums: seq<Row>)
      requires Valid() && |shards| >= ts && Laid(shards, bs) && Separate(shards) && row < ps
      requires |start| == |shards| && |sums| == ds + 1
      requires forall idx :: 0 <= idx < ds ==> SumStep(sums, matrix[row], start, v, idx)
      requires View(shards, bs) == start[ds + row := sums[0]]
      modifies Buffers(shards)
      ensures Valid()
      ensures View(shards, bs) == start[ds + row := sums[ds]]
    {
      for idx := 0 to ds
        invariant Valid() && View(shards, bs) == start[ds + row := sums[idx]]
      {
        ParityStep(shards, bs, row, idx, start, v, sums);
      }
    }

    // One data shard is added to parity shard row.
    method ParityStep(shards: seq<Ptr>, bs: nat, row: nat, idx: nat,
                      ghost start: seq<Row>, ghost v: seq<Row>, ghost sums: seq<Row>)
      requires Valid() && |shards| >= ts && Laid(shards, bs) && Separate(shards) && row < ps && idx < ds
      requires |start| == |shards| && SumStep(sums, matrix[row], start, v, idx)
      requires View(shards, bs) == start[ds + row := sums[idx]]
      modifies Buffers(shards)
      ensures Valid()
      ensures View(shards, bs) == start[ds + row := sums[idx + 1]]
    {
      var u := Coefficient(row, idx);
      assert shards[ds + row] in shards;
      ShardAxpy(isa, shards, ds + row, idx, u, bs);
    }

    // Encoding fails when there are fewer shards than the codec has, and changes nothing then.
    method Encode(shards: seq<Ptr>, bs: nat) returns (status: int)
      requires Valid() && Laid(shards, bs) && Separate(shards)
      modifies Buffers(shards)
      ensures Valid()
      ensures status == if |shards| < ts then -1 else 0
      ensures var v := old(View(shards, bs));
              View(shards, bs) == if |shards| < ts then v else v[..ds] + Encoded(matrix, v[..ds], bs) + v[ts..]
    {
      if |shards| < ts {
        return -1;
      }
      Gemm(shards, bs);
      status := 0;
    }

    // The work area behind the matrix, which the elimination uses as a square matrix of its own.

    ghost predicate WorkHolds(base: nat, a: Matrix)
      reads this, p
    {
      Square(a) && FlatRows.TwoMatrices(p[..], matrix, ds, base, a)
    }

    // Room for a square matrix of w rows, and for the bytes behind it that scaling its last
    // row runs into.
    ghost predicate HasRoom(base: nat, w: nat)
    {
      base + w * w + w <= p.Length + 1
    }

    method WorkEntry(base: nat, i: nat, j: nat, w: nat, ghost a: Matrix) returns (u: u8)
      requires WorkHolds(base, a) && w == |a| && i < w && j < w
      ensures u == a[i][j]
    {
      FlatRows.CellInBuffer(p[..][base..], a, w, i, j);
      u := p[base + i * w + j];
    }

    // Scaling w bytes from the diagonal entry of row x on.
    method ScaleWorkRow(base: nat, x: nat, u: u8, w: nat, ghost a: Matrix)
      requires HasRoom(base, w) && WorkHolds(base, a) && x < w == |a| && u != 0
      requires FlatRows.ClearLeft(a, x)
      modifies p
      ensures WorkHolds(base, a[x := Scale(a[x], u)])
    {
      ghost var was := p[..];
      var off := x * w;
      FlatRows.DiagonalFits(x, w, off, base, |was|);
      ScaleStretch(base + off + x, u, w);
      FlatRows.AfterScaling(was, p[..], matrix, ds, base, a, w, x, off, u);
    }

    method ScaleStretch(at: nat, u: u8, w: nat)
      requires at + w <= p.Length && u != 0
      modifies p
      ensures p[..] == Splice(old(p[..]), at, Scale(old(p[..])[at..at + w], u))
    {
      var target := Ptr(p, at);
      assert target.Bytes(w) == p[..][at..at + w];
      Scal(isa, target, u, w);
    }

    method AddWorkRow(base: nat, row: nat, x: nat, u: u8, w: nat, ghost a: Matrix)
      requires WorkHolds(base, a) && x < row < w == |a|
      modifies p
      ensures WorkHolds(base, a[row := AddScaled(a[row], a[x], u)])
    {
      FlatRows.RowStarts(a, w, row);
      FlatRows.RowStarts(a, w, x);
      AddWorkBytes(base, row, row * w, x, x * w, u, w, a);
    }

    method AddWorkBytes(base: nat, row: nat, to: nat, x: nat, from: nat, u: u8, w: nat, ghost a: Matrix)
      requires WorkHolds(base, a) && x < row < w == |a|
      requires to == FlatRows.RowStart(a, row) && from == FlatRows.RowStart(a, x) && from + w <= to
      modifies p
      ensures WorkHolds(base, a[row := AddScaled(a[row], a[x], u)])
    {
      ghost var was := p[..];
      FlatRows.WorkRowIs(was, matrix, ds, base, a, w, row);
      FlatRows.WorkRowIs(was, matrix, ds, base, a, w, x);
      AddStretch(base + to, base + from, u, w, a[row], a[x]);
      FlatRows.WorkRowReplaced(was, matrix, ds, base, a, w, row, to, AddScaled(a[row], a[x], u));
    }

    // w bytes at from, times u, are added to those at to.
    method AddStretch(to: nat, from: nat, u: u8, w: nat, ghost r: Row, ghost s: Row)
      requires from + w <= to && to + w <= p.Length
      requires p[to..to + w] == r && p[from..from + w] == s
      modifies p
      ensures |r| == |s| && p[..] == Splice(old(p[..]), to, AddScaled(r, s, u))
    {
      var target, source := Ptr(p, to), Ptr(p, from);
      assert target.Bytes(w) == r;
      assert source.Bytes(w) == s;
      Axpy(isa, target, source, u, w);
    }

    // The rows d of the matrix at the columns e become the work matrix.
    method FillWork(base: nat, d: seq<nat>, e: seq<nat>)
      requires Valid() && base == WorkArea() && |d| == |e| && base + |d| * |d| <= p.Length
      requires (forall i :: 0 <= i < |d| ==> d[i] < ps) && (forall j :: 0 <= j < |e| ==> e[j] < ds)
      modifies p
      ensures Valid() && WorkHolds(base, Select(matrix, d, e))
    {
      ghost var a := Select(matrix, d, e);
      FlatRows.RowStarts(matrix, ds, ps);
      for i := 0 to |d|
        invariant FlatRows.Holds(p[..], matrix, ds)
        invariant FlatRows.StartsWith(p[..], base, FlatRows.Flat(a, 0, i))
      {
        FlatRows.RowStarts(a, |d|, i);
        FlatRows.ProductStep(i, |d|, |d|);
        FillWorkRow(base, i, d, e, i * |d|, a);
      }
      FlatRows.AllRowsWritten(p[..], matrix, ds, base, a);
    }

    // One entry of the matrix is copied behind the bytes before.
    method FillWorkByte(base: nat, row: nat, col: nat, at: nat, ghost before: seq<u8>)
      requires |matrix| == ps && ParityShape(matrix, ds) && FlatRows.Holds(p[..], matrix, ds) && row < ps && col < ds
      requires FlatRows.RowStart(matrix, ps) <= base && at == base + |before| < p.Length
      requires FlatRows.StartsWith(p[..], base, before)
      modifies p
      ensures FlatRows.Holds(p[..], matrix, ds)
      ensures FlatRows.StartsWith(p[..], base, before + [matrix[row][col]])
    {
      FlatRows.CellInBuffer(p[..], matrix, ds, row, col);
      var u := p[row * ds + col];
      FlatRows.ByteAppended(p[..], matrix, ds, base, before, at, u);
      p[at] := u;
    }

    method FillWorkRow(base: nat, i: nat, d: seq<nat>, e: seq<nat>, off: nat, ghost a: Matrix)
      requires |matrix| == ps && ParityShape(matrix, ds) && FlatRows.Holds(p[..], matrix, ds)
      requires FlatRows.RowStart(matrix, ps) <= base && i < |d| == |e| && base + off + |d| <= p.Length
      requires (forall k :: 0 <= k < |d| ==> d[k] < ps) && (forall j :: 0 <= j < |e| ==> e[j] < ds)
      requires a == Select(matrix, d, e) && off == FlatRows.RowStart(a, i)
      requires FlatRows.StartsWith(p[..], base, FlatRows.Flat(a, 0, i))
      modifies p
      ensures FlatRows.Holds(p[..], matrix, ds)
      ensures FlatRows.StartsWith(p[..], base, FlatRows.Flat(a, 0, i + 1))
    {
      ghost var f := FlatRows.Flat(a, 0, i);
      for j := 0 to |d|
        invariant FlatRows.Holds(p[..], matrix, ds)
        invariant FlatRows.StartsWith(p[..], base, f + a[i][..j])
      {
        FillWorkByte(base, d[i], e[j], base + off + j, f + a[i][..j]);
        OneMoreByte(f, a[i], j);
      }
      assert a[i][..|d|] == a[i];
    }

    // The shards e hold ys, the others what v says.

    ghost predicate Erasing(shards: seq<Ptr>, bs: nat, v: seq<Row>, e: seq<nat>, ys: seq<Row>)
      requires Laid(shards, bs)
      reads Buffers(shards)
    {
      && |e| == |ys| && |v| == |shards| && Ascending(e, |v|) && Uniform(ys, bs)
      && View(shards, bs) == Scatter(v, e, ys)
    }

    method ErasedAxpy(shards: seq<Ptr>, bs: nat, e: seq<nat>, i: nat, j: nat, u: u8,
                      ghost v: seq<Row>, ghost ys: seq<Row>)
      requires Laid(shards, bs) && Erasing(shards, bs, v, e, ys) && i < |e| && j < |e| && i != j
      modifies Buffers(shards)
      ensures Erasing(shards, bs, v, e, ys[i := AddScaled(ys[i], ys[j], u)])
    {
      ghost var z := AddScaled(ys[i], ys[j], u);
      ScatterUpdate(v, e, ys, i, z);
      ScatterUpdate(v, e, ys, j, z);
      assert shards[e[i]] in shards;
      ShardAxpy(isa, shards, e[i], e[j], u, bs);
    }

    method ErasedScal(shards: seq<Ptr>, bs: nat, e: seq<nat>, i: nat, u: u8, ghost v: seq<Row>, ghost ys: seq<Row>)
      requires Laid(shards, bs) && Erasing(shards, bs, v, e, ys) && i < |e| && u != 0
      modifies Buffers(shards)
      ensures Erasing(shards, bs, v, e, ys[i := Scale(ys[i], u)])
    {
      ScatterUpdate(v, e, ys, i, Scale(ys[i], u));
      assert shards[e[i]] in shards;
      ShardScal(isa, shards, e[i], u, bs);
    }

    // The same row operation in the work area and on the shards.

    method ScaleBoth(base: nat, shards: seq<Ptr>, bs: nat, e: seq<nat>, x: nat,
                     ghost v: seq<Row>, ghost a: Matrix, ghost ys: seq<Row>)
      requires Laid(shards, bs) && Separate(shards) && x < |e| == |a| && HasRoom(base, |e|)
      requires WorkHolds(base, a) && Erasing(shards, bs, v, e, ys)
      requires Cleared(a, x) && a[x][x] != 0
      modifies p, Buffers(shards)
      ensures WorkHolds(base, a[x := Scale(a[x], Pivot(a, x))])
      ensures Erasing(shards, bs, v, e, ys[x := Scale(ys[x], Pivot(a, x))])
    {
      var pivot := WorkEntry(base, x, x, |e|, a);
      var u := Inverse(pivot);
      InvNonZero(pivot);
      ScaleWorkRow(base, x, u, |e|, a);
      ErasedScal(shards, bs, e, x, u, v, ys);
    }

    method AddBoth(base: nat, shards: seq<Ptr>, bs: nat, e: seq<nat>, row: nat, x: nat,
                   ghost v: seq<Row>, ghost a: Matrix, ghost ys: seq<Row>)
      requires Laid(shards, bs) && Separate(shards) && x < row < |e| == |a|
      requires WorkHolds(base, a) && Erasing(shards, bs, v, e, ys)
      modifies p, Buffers(shards)
      ensures WorkHolds(base, a[row := AddScaled(a[row], a[x], a[row][x])])
      ensures Erasing(shards, bs, v, e, ys[row := AddScaled(ys[row], ys[x], a[row][x])])
    {
      var u := WorkEntry(base, row, x, |e|, a);
      AddWorkRow(base, row, x, u, |e|, a);
      ErasedAxpy(shards, bs, e, row, x, u, v, ys);
    }

    method ErasedFromKept(shards: seq<Ptr>, bs: nat, e: seq<nat>, i: nat, k: nat, u: u8,
                          ghost v: seq<Row>, ghost ys: seq<Row>)
      requires Laid(shards, bs) && Erasing(shards, bs, v, e, ys) && Uniform(v, bs)
      requires i < |e| && k < |shards| && k !in e
      modifies Buffers(shards)
      ensures Erasing(shards, bs, v, e, ys[i := AddScaled(ys[i], v[k], u)])
    {
      ScatterUpdate(v, e, ys, i, AddScaled(ys[i], v[k], u));
      assert shards[e[i]] in shards;
      ShardAxpy(isa, shards, e[i], k, u, bs);
    }

    method TakeOutOne(shards: seq<Ptr>, bs: nat, e: seq<nat>, d: nat, i: nat, k: nat,
                      ghost v: seq<Row>, ghost ys: seq<Row>)
      requires Valid() && Laid(shards, bs) && Separate(shards) && k < ds <= |shards|
      requires Erasing(shards, bs, v, e, ys) && Uniform(v, bs) && i < |e| && d < ps && k !in e
      modifies Buffers(shards)
      ensures Valid()
      ensures Erasing(shards, bs, v, e, ys[i := AddScaled(ys[i], v[k], matrix[d][k])])
    {
      var u := Coefficient(d, k);
      ErasedFromKept(shards, bs, e, i, k, u, v, ys);
    }

    // The kept data shards are taken out of the parity shard that stands in for erased shard i;
    // the erased shards go through ss.
    method TakeOutKept(shards: seq<Ptr>, bs: nat, kept: seq<nat>, e: seq<nat>, d: nat, i: nat,
                       ghost v: seq<Row>, ghost ss: seq<seq<Row>>)
      requires Valid() && Laid(shards, bs) && Separate(shards) && ds <= |shards|
      requires Uniform(v, bs) && i < |e| && d < ps && |ss| == |kept| + 1 && Erasing(shards, bs, v, e, ss[0])
      requires forall k :: 0 <= k < |kept| ==> TakesOut(ss, matrix[d], kept, e, v, i, k)
      modifies Buffers(shards)
      ensures Valid() && Erasing(shards, bs, v, e, ss[|kept|])
    {
      for row := 0 to |kept|
        invariant Valid() && Erasing(shards, bs, v, e, ss[row])
      {
        assert TakesOut(ss, matrix[d], kept, e, v, i, row);
        TakeOutOne(shards, bs, e, d, i, kept[row], v, ss[row]);
      }
    }

    method TakeOutAll(shards: seq<Ptr>, bs: nat, kept: seq<nat>, e: seq<nat>, d: seq<nat>,
                      ghost v: seq<Row>, ghost ys: seq<Row>)
      requires Valid() && Laid(shards, bs) && Separate(shards) && ds <= |shards|
      requires Erasing(shards, bs, v, e, ys) && Uniform(v, bs) && |d| == |e|
      requires forall i :: 0 <= i < |d| ==> d[i] < ps
      requires forall r :: 0 <= r < |kept| ==> kept[r] < ds && kept[r] !in e
      modifies Buffers(shards)
      ensures Valid()
      ensures Erasing(shards, bs, v, e, TakenOut(matrix, d, kept, v, ys, ds, bs))
    {
      ghost var ms := Mixes(TakenOut(matrix, d, kept, v, ys, ds, bs), ys);
      assert ms[0] == ys;
      forall i | 0 <= i < |e|
        ensures RowTaken(ms, matrix, d, kept, e, v, bs, i)
      {
        NextTaken(matrix, d, kept, e, v, ys, ds, bs, i);
      }
      for i := 0 to |e|
        invariant Valid() && Erasing(shards, bs, v, e, ms[i])
      {
        TakeOutRow(shards, bs, kept, e, d, i, v, ms);
      }
    }

    method TakeOutRow(shards: seq<Ptr>, bs: nat, kept: seq<nat>, e: seq<nat>, d: seq<nat>, i: nat,
                      ghost v: seq<Row>, ghost ms: seq<seq<Row>>)
      requires Valid() && Laid(shards, bs) && Separate(shards) && ds <= |shards| && Uniform(v, bs) && i < |e|
      requires RowTaken(ms, matrix, d, kept, e, v, bs, i) && Erasing(shards, bs, v, e, ms[i])
      modifies Buffers(shards)
      ensures Valid() && Erasing(shards, bs, v, e, ms[i + 1])
    {
      TakingSteps(matrix[d[i]], kept, e, v, ms[i], i, bs);
      TakeOutKept(shards, bs, kept, e, d[i], i, v, Taking(matrix[d[i]], kept, v, ms[i], i));
    }

    // One pivot: row x is scaled and cleared from the rows below.
    method PivotStep(base: nat, shards: seq<Ptr>, bs: nat, e: seq<nat>, x: nat,
                     ghost v: seq<Row>, ghost a: Matrix, ghost ys: seq<Row>)
      requires Laid(shards, bs) && Separate(shards) && x < |e| == |a| && HasRoom(base, |e|)
      requires WorkHolds(base, a) && Erasing(shards, bs, v, e, ys)
      requires Cleared(a, x) && a[x][x] != 0
      modifies p, Buffers(shards)
      ensures WorkHolds(base, ClearBelow(a, x))
      ensures Erasing(shards, bs, v, e, ClearShards(a, ys, x, bs))
    {
      ghost var ms, zs := Mixes(ClearBelow(a, x), a), Mixes(ClearShards(a, ys, x, bs), ys);
      ScaleBoth(base, shards, bs, e, x, v, a, ys);
      FirstCleared(a, ys, x, bs);
      forall row | x < row < |e|
        ensures RowAt(ms, zs, |e|, x, row)
      {
        NextCleared(a, ys, x, row, bs);
      }
      ClearRows(base, shards, bs, e, x, v, ms, zs);
    }

    // The work area and the shards go through ms and zs while row x is taken from the rows below.
    method ClearRows(base: nat, shards: seq<Ptr>, bs: nat, e: seq<nat>, x: nat,
                     ghost v: seq<Row>, ghost ms: seq<Matrix>, ghost zs: seq<seq<Row>>)
      requires Laid(shards, bs) && Separate(shards) && x < |e| && |ms| == |zs| == |e| + 1
      requires forall row :: x < row < |e| ==> RowAt(ms, zs, |e|, x, row)
      requires WorkHolds(base, ms[x + 1]) && Erasing(shards, bs, v, e, zs[x + 1])
      modifies p, Buffers(shards)
      ensures WorkHolds(base, ms[|e|]) && Erasing(shards, bs, v, e, zs[|e|])
    {
      for row := x + 1 to |e|
        invariant WorkHolds(base, ms[row]) && Erasing(shards, bs, v, e, zs[row])
      {
        assert RowAt(ms, zs, |e|, x, row);
        AddBoth(base, shards, bs, e, row, x, v, ms[row], zs[row]);
      }
    }

    // The forward pass goes through the matrices ms and the shards zs, one pivot at a time.
    method ForwardPass(base: nat, shards: seq<Ptr>, bs: nat, e: seq<nat>,
                       ghost v: seq<Row>, ghost ms: seq<Matrix>, ghost zs: seq<seq<Row>>)
      requires Laid(shards, bs) && Separate(shards) && HasRoom(base, |e|)
      requires |ms| == |zs| == |e| + 1 && (forall x :: 0 <= x < |e| ==> PivotAt(ms, zs, |e|, bs, x))
      requires WorkHolds(base, ms[0]) && Erasing(shards, bs, v, e, zs[0])
      modifies p, Buffers(shards)
      ensures WorkHolds(base, ms[|e|]) && Erasing(shards, bs, v, e, zs[|e|])
    {
      for x := 0 to |e|
        invariant WorkHolds(base, ms[x]) && Erasing(shards, bs, v, e, zs[x])
      {
        assert PivotAt(ms, zs, |e|, bs, x);
        PivotStep(base, shards, bs, e, x, v, ms[x], zs[x]);
      }
    }

    // Column x is cleared from the rows above, in the shards only.
    method ClearColumnAbove(base: nat, shards: seq<Ptr>, bs: nat, e: seq<nat>, x: nat,
                            ghost v: seq<Row>, ghost a: Matrix, ghost ys: seq<Row>)
      requires Laid(shards, bs) && Separate(shards) && x < |e| == |a|
      requires WorkHolds(base, a) && Erasing(shards, bs, v, e, ys)
      modifies Buffers(shards)
      ensures WorkHolds(base, a)
      ensures Erasing(shards, bs, v, e, ClearAbove(a, ys, x, bs))
    {
      ghost var zs := Mixes(ClearAbove(a, ys, x, bs), ys);
      assert zs[0] == ys && zs[x] == ClearAbove(a, ys, x, bs);
      forall row | 0 <= row < x
        ensures RowAbove(zs, a, x, row)
      {
        NextAbove(a, ys, x, row, bs);
      }
      ClearRowsAbove(base, shards, bs, e, x, v, a, zs);
    }

    method ClearRowsAbove(base: nat, shards: seq<Ptr>, bs: nat, e: seq<nat>, x: nat,
                          ghost v: seq<Row>, ghost a: Matrix, ghost zs: seq<seq<Row>>)
      requires Laid(shards, bs) && Separate(shards) && x < |e| == |a| && |zs| == |e| + 1
      requires forall row :: 0 <= row < x ==> RowAbove(zs, a, x, row)
      requires WorkHolds(base, a) && Erasing(shards, bs, v, e, zs[0])
      modifies Buffers(shards)
      ensures WorkHolds(base, a) && Erasing(shards, bs, v, e, zs[x])
    {
      for row := 0 to x
        invariant WorkHolds(base, a) && Erasing(shards, bs, v, e, zs[row])
      {
        assert RowAbove(zs, a, x, row);
        var u := WorkEntry(base, row, x, |e|, a);
        ErasedAxpy(shards, bs, e, row, x, u, v, zs[row]);
      }
    }

    // The backward pass goes through the shards zs from the last to the first.
    method BackwardPass(base: nat, shards: seq<Ptr>, bs: nat, e: seq<nat>,
                        ghost v: seq<Row>, ghost a: Matrix, ghost zs: seq<seq<Row>>)
      requires Laid(shards, bs) && Separate(shards) && |e| == |a| && |zs| == |e| + 1
      requires forall x :: 0 <= x < |e| ==> AboveAt(zs, a, bs, x)
      requires WorkHolds(base, a) && Erasing(shards, bs, v, e, zs[|e|])
      modifies Buffers(shards)
      ensures WorkHolds(base, a) && Erasing(shards, bs, v, e, zs[0])
    {
      var x := |e|;
      while x > 0
        invariant 0 <= x <= |e| && WorkHolds(base, a) && Erasing(shards, bs, v, e, zs[x])
      {
        x := x - 1;
        assert AboveAt(zs, a, bs, x);
        ClearColumnAbove(base, shards, bs, e, x, v, a, zs[x + 1]);
      }
    }

    // The erased shards c[V0..] hold parity shards; their contents become the lost data.
    method InvertMat(shards: seq<Ptr>, V0: nat, bs: nat, c: seq<nat>, d: seq<nat>, ghost v: seq<Row>)
      requires Valid() && Laid(shards, bs) && Separate(shards) && ts <= |shards|
      requires V0 <= |c| == ds && |d| == ds - V0 && HasRoom(WorkArea(), |d|)
      requires Ascending(c[V0..], ds) && (forall i :: 0 <= i < |d| ==> d[i] < ps)
      requires forall r :: 0 <= r < V0 ==> c[r] < ds && c[r] !in c[V0..]
      requires v == View(shards, bs) && Regular(Select(matrix, d, c[V0..]))
      modifies p, Buffers(shards)
      ensures Valid()
      ensures View(shards, bs) == Inverted(matrix, d, c[..V0], c[V0..], v, ds, bs)
    {
      InvertErased(shards, bs, c[..V0], c[V0..], d, v);
    }

    method InvertErased(shards: seq<Ptr>, bs: nat, kept: seq<nat>, e: seq<nat>, d: seq<nat>, ghost v: seq<Row>)
      requires Valid() && Laid(shards, bs) && Separate(shards) && ts <= |shards|
      requires |d| == |e| && HasRoom(WorkArea(), |d|)
      requires Ascending(e, ds) && (forall i :: 0 <= i < |d| ==> d[i] < ps)
      requires forall r :: 0 <= r < |kept| ==> kept[r] < ds && kept[r] !in e
      requires v == View(shards, bs) && Regular(Select(matrix, d, e))
      modifies p, Buffers(shards)
      ensures Valid() && View(shards, bs) == Inverted(matrix, d, kept, e, v, ds, bs)
    {
      var base := WorkArea();
      FillWork(base, d, e);
      ScatterSame(v, e);
      TakeOutAll(shards, bs, kept, e, d, v, Gather(v, e));
      Solve(base, shards, bs, e, v, Select(matrix, d, e), TakenOut(matrix, d, kept, v, Gather(v, e), ds, bs));
    }

    method Solve(base: nat, shards: seq<Ptr>, bs: nat, e: seq<nat>, ghost v: seq<Row>, ghost a: Matrix,
                 ghost ys: seq<Row>)
      requires Valid() && base == WorkArea() && Laid(shards, bs) && Separate(shards)
      requires HasRoom(base, |e|) && |e| == |a| == |ys|
      requires WorkHolds(base, a) && Erasing(shards, bs, v, e, ys) && Regular(a)
      modifies p, Buffers(shards)
      ensures Valid() && View(shards, bs) == Scatter(v, e, Solution(a, ys, bs))
    {
      ghost var ms, zs := Matrices(a), ShardStates(a, ys, bs);
      forall x: nat | x < |e|
        ensures PivotAt(ms, zs, |e|, bs, x)
      {
        NextPivot(a, ys, x, bs);
      }
      ForwardPass(base, shards, bs, e, v, ms, zs);
      ghost var b, y := ms[|e|], zs[|e|];
      BackStatesStep(b, y, |e|, bs);
      BackwardPass(base, shards, bs, e, v, b, BackStates(b, y, |e|, bs));
    }

    method FindErasures(marks: seq<u8>, erasures: array<nat>) returns (gaps: nat)
      requires erasures.Length == ds <= |marks|
      modifies erasures
      ensures gaps <= ds && erasures[..gaps] == Erased(marks, ds)
    {
      gaps := 0;
      for i := 0 to ds
        invariant gaps <= i && erasures[..gaps] == Erased(marks, i)
      {
        if marks[i] != 0 {
          erasures[gaps] := i;
          gaps := gaps + 1;
        }
      }
    }

    // The next data shard that was not lost; the caller knows that there is one.
    method NextKeptShard(marks: seq<u8>, from: nat) returns (j: nat)
      requires from <= ds <= |marks| && |Kept(marks, from)| < |Kept(marks, ds)|
      ensures from <= j < ds && marks[j] == 0 && Kept(marks, j) == Kept(marks, from)
    {
      j := from;
      ghost var k := IndexAhead(marks, 0, j, ds, false);
      while marks[j] != 0
        invariant from <= j < ds && Kept(marks, j) == Kept(marks, from)
        decreases ds - j
      {
        k := IndexAhead(marks, 0, j + 1, ds, false);
        j := j + 1;
      }
    }

    method FindKept(marks: seq<u8>, gaps: nat, colperm: array<nat>)
      requires colperm.Length == ds <= |marks| && gaps == |Erased(marks, ds)| <= ds
      modifies colperm
      ensures colperm[..ds - gaps] == Kept(marks, ds)
    {
      IndicesCount(marks, 0, ds);
      var j := 0;
      for i := 0 to ds - gaps
        invariant j <= ds && colperm[..i] == Kept(marks, j)
      {
        j := NextKeptShard(marks, j);
        colperm[i] := j;
        j := j + 1;
      }
      IndicesPrefix(marks, 0, j, ds, false);
    }

    /** Whether a search for unmarked shards from the parity on stops at shard n, and at none before it but parity. */
    ghost predicate Stops(marks: seq<u8>, n: nat)
    {
      StopsAt(marks, ts, n)
    }

    // The next surviving parity shard from j on, or n, the number of shards, when there is none.
    // In that case the search runs past the last mark, which is why it needs a zero there.
    method NextParityShard(marks: seq<u8>, n: nat, from: nat, ghost i: nat) returns (j: nat)
      requires ts == ds + ps && ds <= from <= ts <= n && ts <= |marks| && |Indices(marks, ds, from, false)| == i
      requires i < |ParityRows(marks, ds, ps)| || Stops(marks, n)
      ensures from <= j < ts || j == n
      ensures j < ts ==> |Indices(marks, ds, j + 1, false)| == i + 1
      ensures j < ts ==> i < |ParityRows(marks, ds, ps)| && ParityRows(marks, ds, ps)[i] == j - ds
      ensures j >= ts ==> i == |ParityRows(marks, ds, ps)|
    {
      j := from;
      ScanStarts(marks, ds, ps, n, j, i);
      while marks[j] != 0
        invariant from <= j && Scanning(marks, ds, ps, n, j, i)
        decreases n - j
      {
        ScanGoesOn(marks, ds, ps, n, j, i);
        j := j + 1;
      }
      ScanEnds(marks, ds, ps, n, j, i);
    }

    /** After i copies: the rows of these, and what the shards are then. */
    ghost predicate Copying(shards: seq<Ptr>, bs: nat, rowperm: array<nat>, i: nat, rows: seq<nat>,
                            copies: seq<seq<Row>>)
      requires Laid(shards, bs)
      reads this, p, rowperm, Buffers(shards)
    {
      && Valid() && i <= |rows| && i <= rowperm.Length && i < |copies|
      && rowperm[..i] == rows[..i] && View(shards, bs) == copies[i]
    }

    method CopyOne(shards: seq<Ptr>, bs: nat, e: seq<nat>, rowperm: array<nat>, i: nat, j: nat,
                   ghost rows: seq<nat>, ghost copies: seq<seq<Row>>)
      requires Laid(shards, bs) && Separate(shards) && ts <= |shards| && Copying(shards, bs, rowperm, i, rows, copies)
      requires i < |e| <= rowperm.Length && i < |rows| && j == ds + rows[i]
      requires forall k: nat :: CopyAt(copies, e, rows, ds, |shards|, k)
      modifies rowperm, Buffers(shards)
      ensures Copying(shards, bs, rowperm, i + 1, rows, copies)
    {
      assert CopyAt(copies, e, rows, ds, |shards|, i);
      assert shards[e[i]] in shards;
      ShardCopy(shards, e[i], j, bs);
      rowperm[i] := j - ds;
    }

    // Parity shards are copied over the erased ones, as far as they go; copies[i] is what the
    // shards are after i of them.
    method CopyParity(shards: seq<Ptr>, bs: nat, marks: seq<u8>, e: seq<nat>, rowperm: array<nat>,
                      ghost copies: seq<seq<Row>>)
      returns (i: nat)
      requires Valid() && Laid(shards, bs) && Separate(shards) && ts <= |shards| && ts <= |marks|
      requires |e| <= rowperm.Length && (forall k :: 0 <= k < |e| ==> e[k] < ts)
      requires |e| <= |ParityRows(marks, ds, ps)| || Stops(marks, |shards|)
      requires |copies| > 0 && View(shards, bs) == copies[0]
      requires forall k: nat :: CopyAt(copies, e, ParityRows(marks, ds, ps), ds, |shards|, k)
      modifies rowperm, Buffers(shards)
      ensures Valid()
      ensures i <= |e| && i <= |ParityRows(marks, ds, ps)| && (i == |e| || i == |ParityRows(marks, ds, ps)|)
      ensures rowperm[..i] == ParityRows(marks, ds, ps)[..i]
      ensures i < |copies| && View(shards, bs) == copies[i]
    {
      ghost var rows := ParityRows(marks, ds, ps);
      i := 0;
      var j := ds;
      while i < |e|
        invariant i <= |e| && ds <= j <= ts && |Indices(marks, ds, j, false)| == i
        invariant Copying(shards, bs, rowperm, i, rows, copies)
      {
        j := NextParityShard(marks, |shards|, j, i);
        if j >= |shards| {
          break;
        }
        CopyOne(shards, bs, e, rowperm, i, j, rows, copies);
        i, j := i + 1, j + 1;
      }
    }

    method FillColumns(marks: seq<u8>, erasures: array<nat>, gaps: nat, colperm: array<nat>)
      requires colperm.Length == ds <= |marks| && gaps <= ds == erasures.Length && erasures != colperm
      requires erasures[..gaps] == Erased(marks, ds)
      modifies colperm
      ensures |Kept(marks, ds)| == ds - gaps && colperm[..] == Kept(marks, ds) + Erased(marks, ds)
    {
      IndicesCount(marks, 0, ds);
      FindKept(marks, gaps, colperm);
      for i := 0 to gaps
        invariant colperm[..ds - gaps + i] == Kept(marks, ds) + Erased(marks, ds)[..i]
      {
        assert erasures[i] == erasures[..gaps][i];
        colperm[ds - gaps + i] := erasures[i];
      }
      assert colperm[..] == colperm[..ds];
    }

    /**
     What decoding asks of its caller: a mark for each shard of the codec; room for the elimination
     behind the matrix; and if too few shards survive, no unmarked shard behind those of the codec,
     and a zero behind the marks.
     */
    ghost predicate CanDecode(marks: seq<u8>, n: nat)
      requires Valid()
      reads this, p
    {
      && CorrectsAllLosses(matrix, ds)
      && (n >= ts ==>
            && ts <= |marks|
            && if EnoughSurvive(marks, ds, ps) then HasRoom(WorkArea(), |Erased(marks, ds)|) else Stops(marks, n))
    }

    method CopyAll(shards: seq<Ptr>, bs: nat, marks: seq<u8>, e: seq<nat>, rowperm: array<nat>) returns (i: nat)
      requires Valid() && Laid(shards, bs) && Separate(shards) && ts <= |shards| && ts <= |marks|
      requires e == Erased(marks, ds) && |e| <= rowperm.Length
      requires EnoughSurvive(marks, ds, ps) || Stops(marks, |shards|)
      modifies rowperm, Buffers(shards)
      ensures Valid()
      ensures i <= |e| && i <= |ParityRows(marks, ds, ps)| && (i == |e| || i == |ParityRows(marks, ds, ps)|)
      ensures rowperm[..i] == ParityRows(marks, ds, ps)[..i]
      ensures var v := old(View(shards, bs));
              View(shards, bs) == Scatter(v, e[..i], Copied(v, ds, ParityRows(marks, ds, ps)[..i]))
    {
      ghost var rows, v := ParityRows(marks, ds, ps), View(shards, bs);
      IndicesAscend(marks, 0, ds, true);
      forall k: nat
        ensures CopyAt(Copies(v, ds, e, rows), e, rows, ds, |shards|, k)
      {
        CopiesStep(v, ds, e, rows, k);
      }
      CopiesStep(v, ds, e, rows, 0);
      i := CopyParity(shards, bs, marks, e, rowperm, Copies(v, ds, e, rows));
    }

    method RepairErased(shards: seq<Ptr>, bs: nat, marks: seq<u8>, c: seq<nat>, d: seq<nat>, ghost v: seq<Row>)
      requires Valid() && Laid(shards, bs) && Separate(shards) && ts <= |shards| && ts <= |marks|
      requires EnoughSurvive(marks, ds, ps) && d == UsedRows(marks, ds, ps)
      requires |c| == ds && c == Kept(marks, ds) + Erased(marks, ds)
      requires CorrectsAllLosses(matrix, ds) && HasRoom(WorkArea(), |d|)
      requires |v| == |shards| && Uniform(v, bs)
      requires View(shards, bs) == Scatter(v, Erased(marks, ds), Copied(v, ds, d))
      modifies p, Buffers(shards)
      ensures Valid() && View(shards, bs) == Repaired(matrix, marks, v, ds, bs)
    {
      ghost var kept, e := Kept(marks, ds), Erased(marks, ds);
      IndicesAscend(marks, 0, ds, true);
      ColumnsSplit(c, kept, e);
      assert Regular(Select(matrix, d, e));
      DecodedIsRepaired(matrix, marks, v, ds, bs);
      InvertMat(shards, ds - |d|, bs, c, d, View(shards, bs));
    }

    // Decoding repairs the marked data shards when enough parity shards survive.
    method Decode(marks: seq<u8>, shards: seq<Ptr>, bs: nat) returns (status: int)
      requires Valid() && Laid(shards, bs) && Separate(shards) && CanDecode(marks, |shards|)
      modifies p, Buffers(shards)
      ensures Valid()
      ensures status == if |shards| >= ts && EnoughSurvive(marks, ds, ps) then 0 else -1
      ensures status == 0 ==> View(shards, bs) == Repaired(matrix, marks, old(View(shards, bs)), ds, bs)
      ensures forall i :: 0 <= i < |shards| && (|shards| < ts || i !in Erased(marks, ds)) ==>
                View(shards, bs)[i] == old(View(shards, bs)[i])
    {
      if |shards| < ts {
        return -1;
      }
      var e, c := FindColumns(marks);
      status := DecodeErased(marks, shards, bs, e, c, View(shards, bs));
    }

    method DecodeErased(marks: seq<u8>, shards: seq<Ptr>, bs: nat, e: seq<nat>, c: seq<nat>, ghost v: seq<Row>)
      returns (status: int)
      requires Valid() && Laid(shards, bs) && Separate(shards) && ts <= |shards| && CanDecode(marks, |shards|)
      requires e == Erased(marks, ds) && |c| == ds && c == Kept(marks, ds) + e && v == View(shards, bs)
      modifies p, Buffers(shards)
      ensures Valid()
      ensures status == if EnoughSurvive(marks, ds, ps) then 0 else -1
      ensures status == 0 ==> View(shards, bs) == Repaired(matrix, marks, v, ds, bs)
      ensures forall i :: 0 <= i < |shards| && i !in e ==> View(shards, bs)[i] == v[i]
    {
      var rowperm := new nat[ds];
      IndicesCount(marks, 0, ds);
      var i := CopyAll(shards, bs, marks, e, rowperm);
      CopiesEnd(marks, ds, ps, i);
      if i < |e| {
        ScatterOthers(v, e, i, Copied(v, ds, ParityRows(marks, ds, ps)[..i]));
        return -1;
      }
      RepairedOthers(matrix, marks, v, ds, bs);
      RepairErased(shards, bs, marks, c, rowperm[..i], v);
      status := 0;
    }

    // The erased shards, and the kept shards followed by the erased ones.
    method FindColumns(marks: seq<u8>) returns (e: seq<nat>, c: seq<nat>)
      requires ds <= |marks|
      ensures e == Erased(marks, ds) && |e| <= ds == |c| && c == Kept(marks, ds) + e
    {
      var erasures, colperm := new nat[ds], new nat[ds];
      var gaps := FindErasures(marks, erasures);
      FillColumns(marks, erasures, gaps, colperm);
      e, c := erasures[..gaps], colperm[..];
    }
  }

  /** The shards v with the erased ones e solved for. */
  ghost function Inverted(m: Matrix, d: seq<nat>, kept: seq<nat>, e: seq<nat>, v: seq<Row>, ds: nat, len: nat):
    (s: seq<Row>)
    requires ParityShape(m, ds) && ds <= |v| && Uniform(v, len) && |d| == |e|
    requires (forall i :: 0 <= i < |d| ==> d[i] < |m|) && (forall i :: 0 <= i < |e| ==> e[i] < ds)
    requires forall r :: 0 <= r < |kept| ==> kept[r] < ds
    ensures |s| == |v|
  {
    Scatter(v, e, Solution(Select(m, d, e), TakenOut(m, d, kept, v, Gather(v, e), ds, len), len))
  }

  lemma DecodedIsRepaired(m: Matrix, marks: seq<u8>, v: seq<Row>, ds: nat, len: nat)
    requires ParityShape(m, ds) && ds + |m| <= |v| && ds + |m| <= |marks| && Uniform(v, len)
    requires EnoughSurvive(marks, ds, |m|)
    ensures var e, kept, d := Erased(marks, ds), Kept(marks, ds), UsedRows(marks, ds, |m|);
            var v1 := Scatter(v, e, Copied(v, ds, d));
            && Ascending(e, |v|) && Uniform(v1, len)
            && Inverted(m, d, kept, e, v1, ds, len) == Repaired(m, marks, v, ds, len)
  {
    var e, kept, d := Erased(marks, ds), Kept(marks, ds), UsedRows(marks, ds, |m|);
    var ys := Copied(v, ds, d);
    var v1 := Scatter(v, e, ys);
    ResidualsFromCopies(m, marks, v, ds, d, len);
    assert ys == seq(|d|, i requires 0 <= i < |d| => v[ds + d[i]]);
    GatherScattered(v, e, ys);
    assert TakenOut(m, d, kept, v1, ys, ds, len) == Residuals(m, d, kept, v, ds, len);
    ScatterTwice(v, e, ys, Solution(Select(m, d, e), Residuals(m, d, kept, v, ds, len), len));
  }

  lemma GatherScattered(v: seq<Row>, e: seq<nat>, ys: seq<Row>)
    requires |e| == |ys| && Ascending(e, |v|)
    ensures Gather(Scatter(v, e, ys), e) == ys
  {
    forall i | 0 <= i < |e|
      ensures Gather(Scatter(v, e, ys), e)[i] == ys[i]
    {
      ScatterIs(v, e, ys, i);
    }
  }

  /** Copy k of a parity shard over an erased one leads from the k-th contents to the next. */
  ghost predicate CopyAt(copies: seq<seq<Row>>, e: seq<nat>, rows: seq<nat>, ds: nat, ts: nat, k: nat)
  {
    k < |e| && k < |rows| ==>
      && k + 1 < |copies| && |copies[k]| == ts && e[k] < ts && ds + rows[k] < ts
      && copies[k + 1] == copies[k][e[k] := copies[k][ds + rows[k]]]
  }

  ghost function Copies(v: seq<Row>, ds: nat, e: seq<nat>, rows: seq<nat>): (copies: seq<seq<Row>>)
    requires forall k :: 0 <= k < |rows| ==> ds + rows[k] < |v|
    ensures |copies| == (if |e| <= |rows| then |e| else |rows|) + 1
    ensures forall i :: 0 <= i < |copies| ==> copies[i] == Scatter(v, e[..i], Copied(v, ds, rows[..i]))
  {
    seq((if |e| <= |rows| then |e| else |rows|) + 1,
        i requires 0 <= i < (if |e| <= |rows| then |e| else |rows|) + 1 => Scatter(v, e[..i], Copied(v, ds, rows[..i])))
  }

  lemma CopiesStep(v: seq<Row>, ds: nat, e: seq<nat>, rows: seq<nat>, k: nat)
    requires ds <= |v| && Ascending(e, ds) && forall k :: 0 <= k < |rows| ==> ds + rows[k] < |v|
    ensures CopyAt(Copies(v, ds, e, rows), e, rows, ds, |v|, k)
    ensures Copies(v, ds, e, rows)[0] == v
  {
    if k < |e| && k < |rows| {
      CopyNext(v, ds, e, rows, k);
    }
  }

  ghost function Copied(v: seq<Row>, ds: nat, rows: seq<nat>): (ys: seq<Row>)
    requires forall i :: 0 <= i < |rows| ==> ds + rows[i] < |v|
    ensures |ys| == |rows|
  {
    seq(|rows|, i requires 0 <= i < |rows| => v[ds + rows[i]])
  }

  lemma ParityAhead(marks: seq<u8>, ds: nat, ts: nat, j: nat, i: nat)
    requires ds <= j <= ts <= |marks| && |Indices(marks, ds, j, false)| == i
    ensures |ParityRows(marks, ds, ts - ds)| == |Indices(marks, ds, ts, false)| >= i
    ensures i < |Indices(marks, ds, ts, false)| ==> j < ts
  {
    IndicesPrefix(marks, ds, j, ts, false);
  }

  lemma CopyNext(v: seq<Row>, ds: nat, e: seq<nat>, rows: seq<nat>, i: nat)
    requires i < |e| && i < |rows| && ds <= |v| && Ascending(e, ds)
    requires forall k :: 0 <= k < |rows| ==> ds + rows[k] < |v|
    ensures Scatter(v, e[..i], Copied(v, ds, rows[..i]))[e[i] := v[ds + rows[i]]]
         == Scatter(v, e[..i + 1], Copied(v, ds, rows[..i + 1]))
    ensures Scatter(v, e[..i], Copied(v, ds, rows[..i]))[ds + rows[i]] == v[ds + rows[i]]
  {
    var e', ys := e[..i + 1], Copied(v, ds, rows[..i + 1]);
    ScatterMore(v, e', ys, i);
    assert e'[..i] == e[..i] && ys[..i] == Copied(v, ds, rows[..i]) && e'[..i + 1] == e' && ys[..i + 1] == ys;
  }

  ghost function TakenOut(m: Matrix, d: seq<nat>, kept: seq<nat>, v: seq<Row>, ys: seq<Row>, ds: nat, len: nat):
    (zs: seq<Row>)
    requires ParityShape(m, ds) && ds <= |v| && Uniform(v, len) && Uniform(ys, len) && |d| == |ys|
    requires (forall i :: 0 <= i < |d| ==> d[i] < |m|) && (forall r :: 0 <= r < |kept| ==> kept[r] < ds)
    ensures |zs| == |ys| && Uniform(zs, len)
  {
    seq(|d|, i requires 0 <= i < |d| => Residual(m[d[i]], kept, v, ys[i], |kept|))
  }

  lemma ReplaceTwice(ys: seq<Row>, i: nat, y: Row, z: Row)
    requires i < |ys|
    ensures ys[i := y][i := z] == ys[i := z] && ys[i := y][i] == y
  {
  }

  /** Taking row x from a row above leads from the shards with that number to the next. */
  ghost predicate RowAbove(zs: seq<seq<Row>>, a: Matrix, x: nat, row: nat)
  {
    && row + 1 < |zs| && row < x < |zs[row]| && row < |a| && x < |a[row]| && |zs[row][row]| == |zs[row][x]|
    && zs[row + 1] == zs[row][row := AddScaled(zs[row][row], zs[row][x], a[row][x])]
  }

  lemma NextAbove(a: Matrix, ys: seq<Row>, x: nat, row: nat, len: nat)
    requires Square(a) && row < x < |a| == |ys| && Uniform(ys, len)
    ensures RowAbove(Mixes(ClearAbove(a, ys, x, len), ys), a, x, row)
  {
    var zs := ClearAbove(a, ys, x, len);
    assert (zs[..row] + ys[row..])[row := zs[row]] == zs[..row + 1] + ys[row + 1..];
  }

  /** Step x of the forward pass leads from the x-th matrix and shards to the next ones. */
  ghost predicate PivotAt(ms: seq<Matrix>, zs: seq<seq<Row>>, n: nat, len: nat, x: nat)
    requires x < n && |ms| == |zs| == n + 1
  {
    && Square(ms[x]) && |ms[x]| == |zs[x]| == n && Uniform(zs[x], len)
    && Cleared(ms[x], x) && ms[x][x][x] != 0
    && ms[x + 1] == ClearBelow(ms[x], x)
    && zs[x + 1] == ClearShards(ms[x], zs[x], x, len)
  }

  ghost function Matrices(a: Matrix): (s: seq<Matrix>)
    requires Square(a)
    ensures |s| == |a| + 1 && forall x :: 0 <= x <= |a| ==> s[x] == Forward(a, x)
  {
    seq(|a| + 1, x requires 0 <= x < |a| + 1 => Forward(a, x))
  }

  ghost function ShardStates(a: Matrix, ys: seq<Row>, len: nat): (s: seq<seq<Row>>)
    requires Square(a) && |a| == |ys| && Uniform(ys, len)
    ensures |s| == |a| + 1 && forall x :: 0 <= x <= |a| ==> s[x] == ForwardShards(a, ys, x, len)
  {
    seq(|a| + 1, x requires 0 <= x < |a| + 1 => ForwardShards(a, ys, x, len))
  }

  lemma NextPivot(a: Matrix, ys: seq<Row>, x: nat, len: nat)
    requires Square(a) && Regular(a) && x < |a| == |ys| && Uniform(ys, len)
    ensures PivotAt(Matrices(a), ShardStates(a, ys, len), |a|, len, x)
  {
    ForwardClears(a, x);
    assert PivotNonZero(a, x);
    ForwardShardsStep(a, ys, x + 1, len);
    assert Forward(a, x + 1) == ClearBelow(Forward(a, x), x);
  }

  /** The shards during the backward pass: the last entry is the start, the first the result. */
  ghost function BackStates(a: Matrix, ys: seq<Row>, n: nat, len: nat): (zs: seq<seq<Row>>)
    requires Square(a) && n <= |a| == |ys| && Uniform(ys, len)
    ensures |zs| == n + 1 && zs[n] == ys
    decreases n
  {
    if n == 0 then [ys] else BackStates(a, ClearAbove(a, ys, n - 1, len), n - 1, len) + [ys]
  }

  ghost predicate AboveAt(zs: seq<seq<Row>>, a: Matrix, len: nat, x: nat)
    requires x + 1 < |zs|
  {
    && Square(a) && x < |a| == |zs[x + 1]| && Uniform(zs[x + 1], len)
    && zs[x] == ClearAbove(a, zs[x + 1], x, len)
  }

  lemma {:induction false} BackStatesStep(a: Matrix, ys: seq<Row>, n: nat, len: nat)
    requires Square(a) && n <= |a| == |ys| && Uniform(ys, len)
    ensures forall x :: 0 <= x < n ==> AboveAt(BackStates(a, ys, n, len), a, len, x)
    ensures BackStates(a, ys, n, len)[0] == Backward(a, ys, n, len)
    decreases n
  {
    if n > 0 {
      var next := ClearAbove(a, ys, n - 1, len);
      BackStatesStep(a, next, n - 1, len);
      var before := BackStates(a, next, n - 1, len);
      forall x | 0 <= x < n
        ensures AboveAt(before + [ys], a, len, x)
      {
        if x < n - 1 {
          assert AboveAt(before, a, len, x);
        }
      }
    }
  }

  /** From t to s, one element at a time. */
  ghost function Mixes<T>(s: seq<T>, t: seq<T>): (ms: seq<seq<T>>)
    requires |s| == |t|
    ensures |ms| == |s| + 1 && ms[|s|] == s
    ensures forall n :: 0 <= n <= |s| ==> ms[n] == s[..n] + t[n..]
  {
    seq(|s| + 1, n requires 0 <= n <= |s| => s[..n] + t[n..])
  }

  /** Taking row x from a row below leads from the matrix and the shards with that number to the next. */
  ghost predicate RowAt(ms: seq<Matrix>, zs: seq<seq<Row>>, n: nat, x: nat, row: nat)
    requires x < row < n && |ms| == |zs| == n + 1
  {
    var a, ys := ms[row], zs[row];
    && |a| == |ys| == n && |a[row]| == |a[x]| > x && |ys[row]| == |ys[x]|
    && ms[row + 1] == a[row := AddScaled(a[row], a[x], a[row][x])]
    && zs[row + 1] == ys[row := AddScaled(ys[row], ys[x], a[row][x])]
  }

  lemma FirstCleared(a: Matrix, ys: seq<Row>, x: nat, len: nat)
    requires Square(a) && x < |a| == |ys| && Uniform(ys, len)
    ensures a[x := Scale(a[x], Pivot(a, x))] == Mixes(ClearBelow(a, x), a)[x + 1]
    ensures ys[x := Scale(ys[x], Pivot(a, x))] == Mixes(ClearShards(a, ys, x, len), ys)[x + 1]
  {
  }

  lemma NextCleared(a: Matrix, ys: seq<Row>, x: nat, row: nat, len: nat)
    requires Square(a) && x < row < |a| == |ys| && Uniform(ys, len)
    ensures RowAt(Mixes(ClearBelow(a, x), a), Mixes(ClearShards(a, ys, x, len), ys), |a|, x, row)
  {
    var b, zs := ClearBelow(a, x), ClearShards(a, ys, x, len);
    assert (b[..row] + a[row..])[row := b[row]] == b[..row + 1] + a[row + 1..];
    assert (zs[..row] + ys[row..])[row := zs[row]] == zs[..row + 1] + ys[row + 1..];
  }
}
