/**
 What the erasure coder computes, stated on values: padding, shards as polynomial evaluations,
 and decoding as interpolation.  The any-k-of-n round trip and its converse (k-1 shards leave the
 first chunk completely open) are proved here.
 */
module ErasureCode {
  import opened Arithmetic
  import opened Bytes
  import opened Galois
  import opened Polynomials

  datatype Error = BadParameters | TooManyPoints | LengthOverflow | TooFewShards | IndexOutOfRange | TruncatedPrefix

  datatype Result<+T> = Success(value: T) | Failure(error: Error)

  // ----- layout of the padded payload

  lemma CellBound(j: nat, pos: nat, size: nat, k: nat)
    requires j < k && pos < size
    ensures j * size + pos < size * k
  {
    MulLess(size, j, k);
  }

  function Pad(data: Bytes, k: nat): (r: Bytes)
    requires k > 0
    ensures |r| % k == 0 && data <= r && |r| < |data| + k
    ensures forall t :: |data| <= t < |r| ==> r[t] == 0
  {
    var rem := |data| % k;
    if rem == 0 then data
    else
      assert |data| + (k - rem) == (|data| / k + 1) * k;
      ModZero(|data| + (k - rem), k, |data| / k + 1);
      data + Zeros(k - rem)
  }

  function Padded(data: Bytes, k: nat): (r: Bytes)
    requires k > 0
    ensures |r| % k == 0
  {
    Pad(BigEndian(|data|, 8) + data, k)
  }

  function ChunkSize(data: Bytes, k: nat): (size: nat)
    requires k > 0
    ensures |Padded(data, k)| == size * k
  {
    |Padded(data, k)| / k
  }

  /** Byte `pos` of each of the k chunks: the polynomial evaluated for that position. */
  function Coefficients(p: Bytes, k: nat, size: nat, pos: nat): (c: Vector)
    requires |p| == size * k && pos < size
    ensures |c| == k
  {
    seq(k, j requires 0 <= j < k => CellBound(j, pos, size, k); p[j * size + pos])
  }

  function Shard(p: Bytes, k: nat, size: nat, i: nat): (s: Bytes)
    requires |p| == size * k && i < 255
    ensures |s| == size
  {
    seq(size, pos requires 0 <= pos < size => Eval(Coefficients(p, k, size, pos), i + 1))
  }

  function Encode(data: Bytes, n: nat, k: nat): (r: Result<seq<Bytes>>)
    ensures r.Success? <==> n > k > 0 && n <= 255 && |data| < Pow256(8)
    ensures r.Success? ==> |r.value| == n
  {
    if !(n > k > 0) then Failure(BadParameters)
    else if n > 255 then Failure(TooManyPoints)
    else if |data| >= Pow256(8) then Failure(LengthOverflow)
    else Success(seq(n, i requires 0 <= i < n => Shard(Padded(data, k), k, ChunkSize(data, k), i)))
  }

  // ----- sorted keys

  ghost predicate IsLeast(m: nat, s: set<nat>)
  {
    m in s && forall y :: y in s ==> m <= y
  }

  lemma {:induction false} LeastExists(s: set<nat>)
    requires s != {}
    ensures exists m :: IsLeast(m, s)
  {
    var x :| x in s;
    if s == {x} {
      assert IsLeast(x, s);
    } else {
      LeastExists(s - {x});
      var m :| IsLeast(m, s - {x});
      assert s == (s - {x}) + {x};
      assert IsLeast(if x < m then x else m, s);
    }
  }

  function Least(s: set<nat>): (m: nat)
    requires s != {}
    ensures IsLeast(m, s)
  {
    LeastExists(s);
    var m :| m in s && forall y :: y in s ==> m <= y;
    m
  }

  function Sorted(s: set<nat>): (r: seq<nat>)
    ensures |r| == |s|
    ensures forall i :: 0 <= i < |r| ==> r[i] in s
    ensures forall i, j :: 0 <= i < j < |r| ==> r[i] < r[j]
  {
    if s == {} then []
    else
      var m := Least(s);
      [m] + Sorted(s - {m})
  }

  // ----- decoding

  ghost predicate Usable(shards: map<nat, Bytes>, ids: seq<nat>, size: nat)
  {
    && (forall i :: 0 <= i < |ids| ==> ids[i] in shards && ids[i] < 255 && |shards[ids[i]]| >= size)
    && (forall i, j :: 0 <= i < j < |ids| ==> ids[i] < ids[j])
  }

  function Points(ids: seq<nat>): (a: seq<Byte>)
    requires forall i :: 0 <= i < |ids| ==> ids[i] < 255
    ensures |a| == |ids|
  {
    seq(|ids|, i requires 0 <= i < |ids| => ids[i] + 1)
  }

  function Column(shards: map<nat, Bytes>, ids: seq<nat>, pos: nat): (y: Vector)
    requires forall i :: 0 <= i < |ids| ==> ids[i] in shards && pos < |shards[ids[i]]|
    ensures |y| == |ids|
  {
    seq(|ids|, i requires 0 <= i < |ids| => shards[ids[i]][pos])
  }

  ghost function Interpolated(shards: map<nat, Bytes>, ids: seq<nat>, size: nat, pos: nat): (c: Vector)
    requires Usable(shards, ids, size) && pos < size
    ensures |c| == |ids|
  {
    Interpolant(Points(ids), Column(shards, ids, pos))
  }

  /** The chunks laid end to end. */
  ghost function Assembled(shards: map<nat, Bytes>, ids: seq<nat>, size: nat): (p: Bytes)
    requires Usable(shards, ids, size)
    ensures |p| == size * |ids|
  {
    seq(size * |ids|, t requires 0 <= t < size * |ids| =>
      assert size > 0 && 0 <= t / size < |ids| by { CellOf(t, size, |ids|); }
      Interpolated(shards, ids, size, t % size)[t / size])
  }

  lemma CellOf(t: nat, size: nat, k: nat)
    requires t < size * k
    ensures size > 0 && t / size < k
  {
    assert t == (t / size) * size + t % size;
  }

  function Unpad(p: Bytes): Bytes
    requires |p| >= 8
  {
    var length := FromBigEndian(p[..8]);
    if 8 + length <= |p| then p[8..8 + length] else p[8..]
  }

  ghost function Decode(shards: map<nat, Bytes>, k: nat): Result<Bytes>
  {
    if |shards| < k then Failure(TooFewShards)
    else if k == 0 then Failure(IndexOutOfRange)
    else
      var ids: seq<nat> := Sorted(shards.Keys)[..k];
      var size := |shards[ids[0]]|;
      if !Usable(shards, ids, size) then Failure(IndexOutOfRange)
      else if size * k < 8 then Failure(TruncatedPrefix)
      else Success(Unpad(Assembled(shards, ids, size)))
  }

  // ----- the round trip

  lemma PointsDistinct(ids: seq<nat>)
    requires forall i :: 0 <= i < |ids| ==> ids[i] < 255
    requires forall i, j :: 0 <= i < j < |ids| ==> ids[i] < ids[j]
    ensures Distinct(Points(ids))
  {
  }

  /** Interpolating genuine shards gives back the chunk bytes. */
  lemma GenuineColumn(p: Bytes, k: nat, size: nat, shards: map<nat, Bytes>, ids: seq<nat>, pos: nat)
    requires |p| == size * k && |ids| == k && pos < size && Usable(shards, ids, size)
    requires forall i :: 0 <= i < k ==> shards[ids[i]] == Shard(p, k, size, ids[i])
    ensures Interpolated(shards, ids, size, pos) == Coefficients(p, k, size, pos)
  {
    hide Eval, Interpolant, Coefficients;
    var c := Coefficients(p, k, size, pos);
    forall i | 0 <= i < k
      ensures Eval(c, Points(ids)[i]) == Column(shards, ids, pos)[i]
    {
      assert shards[ids[i]][pos] == Shard(p, k, size, ids[i])[pos];
    }
    InterpolantUnique(Points(ids), Column(shards, ids, pos), c);
  }

  lemma GenuineAssembled(p: Bytes, k: nat, size: nat, shards: map<nat, Bytes>, ids: seq<nat>)
    requires |p| == size * k && |ids| == k && Usable(shards, ids, size)
    requires forall i :: 0 <= i < k ==> shards[ids[i]] == Shard(p, k, size, ids[i])
    ensures Assembled(shards, ids, size) == p
  {
    hide Shard, Interpolated;
    forall t | 0 <= t < size * k
      ensures Assembled(shards, ids, size)[t] == p[t]
    {
      CellOf(t, size, k);
      GenuineColumn(p, k, size, shards, ids, t % size);
      assert t == (t / size) * size + t % size;
    }
  }

  lemma UnpadPadded(data: Bytes, k: nat)
    requires k > 0 && |data| < Pow256(8)
    ensures |Padded(data, k)| >= 8 && Unpad(Padded(data, k)) == data
  {
    var prefixed := BigEndian(|data|, 8) + data;
    var p := Padded(data, k);
    assert prefixed <= p;
    assert p[..8] == BigEndian(|data|, 8);
    BigEndianRoundTrip(|data|, 8);
    assert p[8..8 + |data|] == prefixed[8..];
  }

  ghost predicate Genuine(shards: map<nat, Bytes>, data: Bytes, n: nat, k: nat)
    requires Encode(data, n, k).Success?
  {
    forall i :: i in shards ==> i < n && shards[i] == Encode(data, n, k).value[i]
  }

  /** Any k or more genuine shards, whatever their indices, decode to exactly the encoded data. */
  lemma AnyShardsDecode(data: Bytes, n: nat, k: nat, shards: map<nat, Bytes>)
    requires n > k > 0 && n <= 255 && |data| < Pow256(8)
    requires Genuine(shards, data, n, k) && |shards| >= k
    ensures Decode(shards, k) == Success(data)
  {
    hide Shard, Assembled, Padded;
    var p, size := Padded(data, k), ChunkSize(data, k);
    var ids: seq<nat> := Sorted(shards.Keys)[..k];
    assert |shards.Keys| == |shards|;
    forall i | 0 <= i < k
      ensures ids[i] in shards && ids[i] < n && shards[ids[i]] == Shard(p, k, size, ids[i])
    {
      assert ids[i] in shards.Keys;
    }
    GenuineAssembled(p, k, size, shards, ids);
    UnpadPadded(data, k);
  }

  // ----- what the shards are

  /** The number of bytes per chunk: length prefix and data divided by k, rounded up. */
  function ShardSize(length: nat, k: nat): nat
    requires k > 0
  {
    (length + 8 + k - 1) / k
  }

  lemma RoundUp(total: nat, padded: nat, k: nat)
    requires k > 0 && padded % k == 0 && total <= padded < total + k
    ensures padded == ((total + k - 1) / k) * k
  {
    var q := padded / k;
    assert padded == q * k;
    DivModUnique(total + k - 1, k, q, total + k - 1 - padded);
  }

  /** The payload is the eight-byte length, the data, and fewer than k zeros. */
  lemma PayloadLayout(data: Bytes, k: nat)
    requires k > 0
    ensures var size := ShardSize(|data|, k);
            && 8 + |data| <= size * k < 8 + |data| + k && ChunkSize(data, k) == size
            && Padded(data, k) == BigEndian(|data|, 8) + data + Zeros(size * k - 8 - |data|)
  {
    PaddedSize(data, k);
    hide Pad, BigEndian, Zeros, ShardSize, ChunkSize;
    ZeroTail(BigEndian(|data|, 8) + data, Padded(data, k));
  }

  lemma PaddedSize(data: Bytes, k: nat)
    requires k > 0
    ensures var size := ShardSize(|data|, k);
            8 + |data| <= |Padded(data, k)| == size * k < 8 + |data| + k && ChunkSize(data, k) == size
  {
    hide Pad, BigEndian;
    var p := Padded(data, k);
    RoundUp(8 + |data|, |p|, k);
    hide Padded;
    DivModUnique(|p|, k, ShardSize(|data|, k), 0);
  }

  lemma ZeroTail(front: Bytes, whole: Bytes)
    requires front <= whole && forall t :: |front| <= t < |whole| ==> whole[t] == 0
    ensures whole == front + Zeros(|whole| - |front|)
  {
    assert whole[..|front|] == front;
  }

  /**
   Shard i holds, for every byte position, the polynomial of the k chunk bytes at that position
   evaluated at i + 1.  Length, payload and points are written out.
   */
  lemma EncodeMeans(data: Bytes, n: nat, k: nat, i: nat, pos: nat)
    requires n > k > 0 && n <= 255 && |data| < Pow256(8) && i < n && pos < ShardSize(|data|, k)
    ensures var size := ShardSize(|data|, k);
            && 8 + |data| <= size * k && |Encode(data, n, k).value[i]| == size
            && var payload := BigEndian(|data|, 8) + data + Zeros(size * k - 8 - |data|);
               exists c: Vector ::
                 && |c| == k && (forall j :: 0 <= j < k ==>
                     j * size + pos < |payload| && c[j] == payload[j * size + pos])
                 && Encode(data, n, k).value[i][pos] == Eval(c, i + 1)
  {
    hide Eval, Padded, BigEndian, Pow256;
    PayloadLayout(data, k);
    var size, p := ShardSize(|data|, k), Padded(data, k);
    hide ShardSize;
    var c := Coefficients(p, k, size, pos);
    forall j | 0 <= j < k
      ensures j * size + pos < |p| && c[j] == p[j * size + pos]
    {
      CellBound(j, pos, size, k);
    }
    assert Encode(data, n, k).value[i] == Shard(p, k, size, i);
  }

  // ----- what decoding returns, whatever the shards

  /** The stated length is honoured as far as the payload reaches. */
  lemma UnpadMeans(p: Bytes)
    requires |p| >= 8
    ensures var length := FromBigEndian(p[..8]);
            && Unpad(p) <= p[8..] && |Unpad(p)| == if length <= |p| - 8 then length else |p| - 8
  {
    hide FromBigEndian;
    var length := FromBigEndian(p[..8]);
    if 8 + length <= |p| {
      assert p[8..8 + length] == p[8..][..length];
    }
  }

  lemma AssembledColumn(shards: map<nat, Bytes>, ids: seq<nat>, size: nat, pos: nat)
    requires Usable(shards, ids, size) && pos < size
    ensures Coefficients(Assembled(shards, ids, size), |ids|, size, pos) == Interpolated(shards, ids, size, pos)
  {
    hide Interpolated;
    var p, k := Assembled(shards, ids, size), |ids|;
    var c := Coefficients(p, k, size, pos);
    forall j | 0 <= j < k
      ensures c[j] == Interpolated(shards, ids, size, pos)[j]
    {
      CellBound(j, pos, size, k);
      DivModUnique(j * size + pos, size, j, pos);
    }
  }

  /**
   Damaged or not, k shards decode to the data of the one payload that would have produced the bytes
   read from them.
   */
  lemma DecodeConsistent(shards: map<nat, Bytes>, k: nat, ids: seq<nat>)
    requires k > 0 && |shards| >= k && ids == Sorted(shards.Keys)[..k]
    requires Usable(shards, ids, |shards[ids[0]]|) && |shards[ids[0]]| * k >= 8
    ensures var size := |shards[ids[0]]|;
            var p := Assembled(shards, ids, size);
            && |p| == size * k && Decode(shards, k) == Success(Unpad(p))
            && (forall i :: 0 <= i < k ==> Shard(p, k, size, ids[i]) == shards[ids[i]][..size])
  {
    hide Sorted, Unpad, Eval, Interpolant, Assembled;
    var size := |shards[ids[0]]|;
    var p := Assembled(shards, ids, size);
    forall i | 0 <= i < k
      ensures Shard(p, k, size, ids[i]) == shards[ids[i]][..size]
    {
      forall pos | 0 <= pos < size
        ensures Shard(p, k, size, ids[i])[pos] == shards[ids[i]][pos]
      {
        AssembledColumn(shards, ids, size, pos);
        PointsDistinct(ids);
        InterpolantEval(Points(ids), Column(shards, ids, pos), i);
      }
    }
  }

  /** Which error is raised, and in which order the tests are made. */
  lemma CoderErrors(data: Bytes, n: nat, k: nat, shards: map<nat, Bytes>)
    ensures Encode(data, n, k) == Failure(BadParameters) <==> k == 0 || n <= k
    ensures Encode(data, n, k) == Failure(TooManyPoints) <==> 0 < k < n && n > 255
    ensures Encode(data, n, k) == Failure(LengthOverflow) <==> 0 < k < n <= 255 && |data| >= Pow256(8)
    ensures Decode(shards, k) == Failure(TooFewShards) <==> |shards| < k
  {
    hide Pow256, Unpad, Assembled, Padded, Shard;
  }

  // ----- which shards decode

  lemma {:induction false} SortedPrefix(s: set<nat>, low: set<nat>)
    requires low <= s && forall i, j :: i in low && j in s && j !in low ==> i < j
    ensures |low| <= |s| && Sorted(s)[..|low|] == Sorted(low)
    decreases |low|
  {
    SubsetSize(low, s);
    if low != {} {
      var m := Least(s);
      assert m in low by {
        var x :| x in low;
      }
      assert Least(low) == m;
      SortedPrefix(s - {m}, low - {m});
      assert Sorted(s)[..|low|] == [m] + Sorted(s - {m})[..|low| - 1];
    }
  }

  lemma {:induction false} SubsetSize(a: set<nat>, b: set<nat>)
    requires a <= b
    ensures |a| <= |b|
  {
    assert b == a + (b - a);
  }

  /** Only the k lowest-numbered shards are read. */
  lemma LowestDecide(shards: map<nat, Bytes>, k: nat, low: set<nat>)
    requires low <= shards.Keys && |low| == k
    requires forall i, j :: i in low && j in shards && j !in low ==> i < j
    ensures Decode(shards, k) == Decode(map i | i in low :: shards[i], k)
  {
    hide Sorted, Unpad;
    var few := map i | i in low :: shards[i];
    assert few.Keys == low && |few| == |few.Keys| && |shards| == |shards.Keys|;
    SortedPrefix(shards.Keys, low);
    if k > 0 {
      var ids := Sorted(low);
      assert Sorted(low)[..k] == ids;
      var size := |shards[ids[0]]|;
      if Usable(shards, ids, size) {
        SameAssembled(shards, few, ids, size);
      }
    }
  }

  lemma SameAssembled(a: map<nat, Bytes>, b: map<nat, Bytes>, ids: seq<nat>, size: nat)
    requires Usable(a, ids, size) && forall i :: 0 <= i < |ids| ==> ids[i] in b && b[ids[i]] == a[ids[i]]
    ensures Usable(b, ids, size) && Assembled(a, ids, size) == Assembled(b, ids, size)
  {
    hide Interpolant;
    forall pos | 0 <= pos < size
      ensures Interpolated(a, ids, size, pos) == Interpolated(b, ids, size, pos)
    {
      assert Column(a, ids, pos) == Column(b, ids, pos);
    }
    hide Interpolated;
    forall t | 0 <= t < size * |ids|
      ensures Assembled(a, ids, size)[t] == Assembled(b, ids, size)[t]
    {
      CellOf(t, size, |ids|);
    }
  }

  // ----- fewer than k shards leave the first chunk open

  lemma EvalAtZero(c: Vector)
    requires c != []
    ensures Eval(c, 0) == c[0]
  {
    MulZero(Eval(c[1..], 0));
    AddLaws(c[0], 0, 0);
  }

  /** The payload p has the given first chunk and would produce the given shards. */
  ghost predicate Fits(p: Bytes, k: nat, size: nat, ids: seq<nat>, shards: map<nat, Bytes>, chunk: Bytes)
  {
    && |p| == size * k && |chunk| == size && k > 0 && Usable(shards, ids, size)
    && (forall pos :: 0 <= pos < size ==> Coefficients(p, k, size, pos)[0] == chunk[pos])
    && (forall i, pos :: 0 <= i < |ids| && 0 <= pos < size ==>
          Shard(p, k, size, ids[i])[pos] == shards[ids[i]][pos])
  }

  lemma OpenPoints(ids: seq<nat>)
    requires forall i :: 0 <= i < |ids| ==> ids[i] < 255
    requires forall i, j :: 0 <= i < j < |ids| ==> ids[i] < ids[j]
    ensures Distinct([0] + Points(ids))
  {
  }

  ghost function OpenColumn(ids: seq<nat>, shards: map<nat, Bytes>, chunk: Bytes, pos: nat): (c: Vector)
    requires Usable(shards, ids, |chunk|) && pos < |chunk|
    ensures |c| == |ids| + 1
  {
    OpenPoints(ids);
    Interpolant([0] + Points(ids), [chunk[pos]] + Column(shards, ids, pos))
  }

  /** The column has the given first byte and produces the given shard bytes. */
  ghost predicate ColumnFits(ids: seq<nat>, shards: map<nat, Bytes>, chunk: Bytes, pos: nat, c: Vector)
    requires Usable(shards, ids, |chunk|) && pos < |chunk| && |c| == |ids| + 1
  {
    && c[0] == chunk[pos]
    && forall i :: 0 <= i < |ids| ==> Eval(c, ids[i] + 1) == shards[ids[i]][pos]
  }

  lemma OpenColumnThrough(ids: seq<nat>, shards: map<nat, Bytes>, chunk: Bytes, pos: nat)
    requires Usable(shards, ids, |chunk|) && pos < |chunk|
    ensures ColumnFits(ids, shards, chunk, pos, OpenColumn(ids, shards, chunk, pos))
  {
    hide Eval, Interpolant;
    OpenPoints(ids);
    var c := OpenColumn(ids, shards, chunk, pos);
    EvalAtZero(c);
    var points, values := [0] + Points(ids), [chunk[pos]] + Column(shards, ids, pos);
    InterpolantEval(points, values, 0);
    forall i | 0 <= i < |ids|
      ensures Eval(c, ids[i] + 1) == shards[ids[i]][pos]
    {
      InterpolantEval(points, values, i + 1);
      assert points[i + 1] == ids[i] + 1 && values[i + 1] == shards[ids[i]][pos];
    }
  }

  lemma OpenColumnUnique(ids: seq<nat>, shards: map<nat, Bytes>, chunk: Bytes, pos: nat, c: Vector)
    requires Usable(shards, ids, |chunk|) && pos < |chunk| && |c| == |ids| + 1
    requires ColumnFits(ids, shards, chunk, pos, c)
    ensures c == OpenColumn(ids, shards, chunk, pos)
  {
    hide Eval, Interpolant;
    OpenPoints(ids);
    EvalAtZero(c);
    var points, values := [0] + Points(ids), [chunk[pos]] + Column(shards, ids, pos);
    forall i | 0 <= i < |points|
      ensures Eval(c, points[i]) == values[i]
    {
      if i > 0 {
        assert points[i] == ids[i - 1] + 1;
      }
    }
    InterpolantUnique(points, values, c);
  }

  lemma OpenColumnFits(ids: seq<nat>, shards: map<nat, Bytes>, chunk: Bytes, pos: nat, c: Vector)
    requires Usable(shards, ids, |chunk|) && pos < |chunk| && |c| == |ids| + 1
    ensures c == OpenColumn(ids, shards, chunk, pos) <==> ColumnFits(ids, shards, chunk, pos, c)
  {
    hide OpenColumn, ColumnFits, Usable;
    OpenColumnThrough(ids, shards, chunk, pos);
    if ColumnFits(ids, shards, chunk, pos, c) {
      OpenColumnUnique(ids, shards, chunk, pos, c);
    }
  }

  ghost function OpenPayload(ids: seq<nat>, shards: map<nat, Bytes>, chunk: Bytes): (p: Bytes)
    requires Usable(shards, ids, |chunk|)
    ensures |p| == |chunk| * (|ids| + 1)
  {
    var size, k := |chunk|, |ids| + 1;
    seq(size * k, t requires 0 <= t < size * k =>
      assert size > 0 && 0 <= t / size < k by { CellOf(t, size, k); }
      OpenColumn(ids, shards, chunk, t % size)[t / size])
  }

  lemma OpenPayloadColumn(ids: seq<nat>, shards: map<nat, Bytes>, chunk: Bytes, pos: nat)
    requires Usable(shards, ids, |chunk|) && pos < |chunk|
    ensures Coefficients(OpenPayload(ids, shards, chunk), |ids| + 1, |chunk|, pos)
        == OpenColumn(ids, shards, chunk, pos)
  {
    hide OpenColumn;
    var size, k := |chunk|, |ids| + 1;
    forall j | 0 <= j < k
      ensures Coefficients(OpenPayload(ids, shards, chunk), k, size, pos)[j] == OpenColumn(ids, shards, chunk, pos)[j]
    {
      CellBound(j, pos, size, k);
      DivModUnique(j * size + pos, size, j, pos);
    }
  }

  /**
   Given any k-1 shards and any candidate for the first chunk, exactly one payload produces both:
   the shards say nothing about the first chunk.
   */
  lemma FirstChunkOpen(ids: seq<nat>, shards: map<nat, Bytes>, chunk: Bytes, p: Bytes)
    requires Usable(shards, ids, |chunk|)
    ensures Fits(p, |ids| + 1, |chunk|, ids, shards, chunk) <==> p == OpenPayload(ids, shards, chunk)
  {
    hide Eval, Coefficients, OpenColumn, OpenPayload;
    var k, size := |ids| + 1, |chunk|;
    var open := OpenPayload(ids, shards, chunk);
    forall pos | 0 <= pos < size
      ensures var c := Coefficients(open, k, size, pos);
              c[0] == chunk[pos] && forall i :: 0 <= i < |ids| ==> Eval(c, ids[i] + 1) == shards[ids[i]][pos]
    {
      OpenPayloadColumn(ids, shards, chunk, pos);
      OpenColumnFits(ids, shards, chunk, pos, OpenColumn(ids, shards, chunk, pos));
    }
    assert Fits(open, k, size, ids, shards, chunk);
    if Fits(p, k, size, ids, shards, chunk) {
      forall pos | 0 <= pos < size
        ensures Coefficients(p, k, size, pos) == Coefficients(open, k, size, pos)
      {
        var c := Coefficients(p, k, size, pos);
        forall i | 0 <= i < |ids|
          ensures Eval(c, ids[i] + 1) == shards[ids[i]][pos]
        {
          assert Shard(p, k, size, ids[i])[pos] == shards[ids[i]][pos];
        }
        OpenColumnFits(ids, shards, chunk, pos, c);
        OpenPayloadColumn(ids, shards, chunk, pos);
      }
      SameColumns(p, open, k, size);
    }
  }

  lemma SameColumns(p: Bytes, q: Bytes, k: nat, size: nat)
    requires |p| == |q| == size * k
    requires forall pos :: 0 <= pos < size ==> Coefficients(p, k, size, pos) == Coefficients(q, k, size, pos)
    ensures p == q
  {
    forall t | 0 <= t < size * k
      ensures p[t] == q[t]
    {
      CellOf(t, size, k);
      assert t == (t / size) * size + t % size;
      assert Coefficients(p, k, size, t % size)[t / size] == Coefficients(q, k, size, t % size)[t / size];
    }
  }
}
