/**
 The erasure coder as the program runs it: class-level logarithm tables filled by a loop, table
 multiplication, shard bytes written position by position, and Gauss-Jordan elimination on an
 augmented matrix updated in place.  Every method is tied to the specification in ErasureCode.
 */
module Coder {
  import opened Arithmetic
  import opened Bytes
  import opened ErasureCode
  import opened Galois
  import opened Generator
  import opened LinearAlgebra
  import opened Options
  import opened Polynomials

  class ErasureCoder {
    const exp: array<Byte>
    const log: array<nat>
    var initialized: bool

    ghost predicate Valid()
      reads this, exp, log
    {
      && exp.Length == 512 && log.Length == 256
      && (initialized ==> Ready())
    }

    /** exp[i] is 2^i, and log inverts exp on the non-zero bytes. */
    ghost predicate Ready()
      reads exp, log
      requires exp.Length == 512 && log.Length == 256
    {
      && (forall i :: 0 <= i < 512 ==> exp[i] == Gen(i))
      && (forall a :: 1 <= a < 256 ==> log[a] < 255 && Gen(log[a]) == a)
    }

    constructor ()
      ensures Valid() && !initialized && fresh(exp) && fresh(log)
    {
      exp := new Byte[512](_ => 0);
      log := new nat[256](_ => 0);
      initialized := false;
    }

    ghost predicate LogInverts(n: nat)
      reads log
      requires log.Length == 256
    {
      forall j :: 0 <= j < n ==> log[Gen(j)] < 255 && Gen(log[Gen(j)]) == Gen(j)
    }

    /** First loop: walk the powers of 2, recording each value and its exponent. */
    method FillPowers()
      requires exp.Length == 512 && log.Length == 256
      modifies exp, log
      ensures forall j :: 0 <= j < 255 ==> exp[j] == Gen(j)
      ensures LogInverts(255)
    {
      hide Gen, Double;
      var x: Byte := 1;
      GenZero();
      for i := 0 to 255
        invariant x == Gen(i)
        invariant forall j :: 0 <= j < i ==> exp[j] == Gen(j)
        invariant LogInverts(i)
      {
        exp[i] := x;
        log[x] := i;
        GenStep(i);
        x := Double(x);
      }
    }

    method InitGf()
      requires Valid()
      modifies this, exp, log
      ensures Valid() && initialized
    {
      hide Gen, LogInverts;
      if initialized { return; }
      FillPowers();
      GenPeriod255();
      for i := 255 to 512
        invariant forall j :: 0 <= j < i ==> exp[j] == Gen(j)
        invariant LogInverts(255)
      {
        exp[i] := exp[i - 255];
        GenPeriod(i - 255, 255);
      }
      LogTotal();
      log[0] := 0;
      initialized := true;
    }

    lemma LogTotal()
      requires log.Length == 256 && LogInverts(255)
      ensures forall a :: 1 <= a < 256 ==> log[a] < 255 && Gen(log[a]) == a
    {
      hide Gen;
      forall a | 1 <= a < 256
        ensures log[a] < 255 && Gen(log[a]) == a
      {
        LogExists(a);
      }
    }

    method GfMul(a: Byte, b: Byte) returns (r: Byte)
      requires Valid() && initialized
      ensures r == Mul(a, b)
    {
      hide Gen, Mul;
      if a == 0 || b == 0 {
        ZeroTimes(a);
        ZeroTimes(b);
        return 0;
      }
      GenAdd(log[a], log[b]);
      r := exp[log[a] + log[b]];
    }

    method GfInv(a: Byte) returns (r: Byte)
      requires Valid() && initialized && a != 0
      ensures r != 0 && Mul(a, r) == 1
    {
      hide Gen, Mul;
      GenZero();
      GenLandmarks(0);
      GenAdd(log[a], 255 - log[a]);
      GenNonZero(255 - log[a]);
      r := exp[255 - log[a]];
    }

    /** powers[j] = alpha^j for j < k. */
    method AlphaPowers(alpha: Byte, k: nat) returns (powers: seq<Byte>)
      requires Valid() && initialized && k > 0
      ensures powers == PowerRow(alpha, k)
    {
      hide Mul;
      powers := [1];
      for j := 1 to k
        invariant |powers| == j
        invariant forall t :: 0 <= t < j ==> powers[t] == Power(alpha, t)
      {
        var next := GfMul(powers[j - 1], alpha);
        powers := powers + [next];
      }
    }

    method DotProduct(a: seq<Byte>, b: seq<Byte>) returns (val: Byte)
      requires Valid() && initialized && |a| == |b|
      ensures val == Dot(a, b, |a|)
    {
      hide Mul, Add;
      val := 0;
      for j := 0 to |a|
        invariant val == Dot(a, b, j)
      {
        var product := GfMul(a[j], b[j]);
        val := Add(val, product);
      }
    }

    // ----- Gauss-Jordan elimination

    method BuildRow(alpha: Byte, k: nat, i: nat) returns (row: Row)
      requires Valid() && initialized
      ensures row == PowerRow(alpha, k) + Unit(k, i)
    {
      hide Mul;
      row := [];
      var alphaPower: Byte := 1;
      for j := 0 to k
        invariant |row| == j && alphaPower == Power(alpha, j)
        invariant forall t :: 0 <= t < j ==> row[t] == Power(alpha, t)
      {
        row := row + [alphaPower];
        alphaPower := GfMul(alphaPower, alpha);
      }
      assert row == PowerRow(alpha, k);
      row := row + Unit(k, i);
    }

    method BuildAugmented(points: seq<Byte>, k: nat) returns (aug: array<Row>)
      requires Valid() && initialized && |points| == k
      ensures fresh(aug) && aug.Length == k && Invariant(aug[..], points, k)
    {
      hide Invariant, PowerRow, Unit;
      aug := new Row[k](_ => []);
      for i := 0 to k
        invariant forall r :: 0 <= r < i ==> aug[r] == PowerRow(points[r], k) + Unit(k, r)
      {
        var row := BuildRow(points[i], k, i);
        aug[i] := row;
      }
      InitialInvariant(aug[..], points, k);
    }

    method ScaleRow(row: Row, f: Byte) returns (r: Row)
      requires Valid() && initialized
      ensures |r| == |row| && forall j :: 0 <= j < |row| ==> r[j] == Mul(row[j], f)
    {
      hide Mul;
      r := row;
      for j := 0 to |row|
        invariant |r| == |row|
        invariant forall t :: 0 <= t < j ==> r[t] == Mul(row[t], f)
        invariant r[j..] == row[j..]
      {
        var product := GfMul(r[j], f);
        r := r[j := product];
      }
    }

    method AddScaledRow(row: Row, f: Byte, pivot: Row) returns (r: Row)
      requires Valid() && initialized && |row| == |pivot|
      ensures |r| == |row| && forall j :: 0 <= j < |row| ==> r[j] == Add(row[j], Mul(f, pivot[j]))
    {
      hide Mul, Add;
      r := row;
      for j := 0 to |row|
        invariant |r| == |row|
        invariant forall t :: 0 <= t < j ==> r[t] == Add(row[t], Mul(f, pivot[t]))
        invariant r[j..] == row[j..]
      {
        var product := GfMul(f, pivot[j]);
        r := r[j := Add(r[j], product)];
      }
    }

    /** The first row at or below `col` with a non-zero entry in that column, or k. */
    method FindPivot(aug: array<Row>, k: nat, col: nat) returns (pivot: nat)
      requires aug.Length == k && col < k && Shape(aug[..], k)
      ensures col <= pivot <= k
      ensures pivot < k ==> aug[pivot][col] != 0
      ensures forall r :: col <= r < pivot ==> aug[r][col] == 0
    {
      assert forall i :: 0 <= i < k ==> |aug[..][i]| == |aug[i]|;
      pivot := col;
      while pivot < k && aug[pivot][col] == 0
        invariant col <= pivot <= k
        invariant forall r :: col <= r < pivot ==> aug[r][col] == 0
      {
        pivot := pivot + 1;
      }
    }

    /** Clear column `col` from every row but its own. */
    method EliminateColumn(aug: array<Row>, points: seq<Byte>, k: nat, col: nat)
      requires Valid() && initialized && aug.Length == k && col < k
      requires Invariant(aug[..], points, k) && Cleared(aug[..], k, col) && aug[col][col] == 1
      modifies aug
      ensures Invariant(aug[..], points, k) && Cleared(aug[..], k, col + 1)
    {
      hide Mul, Add, Represents, KernelTrivial;
      for row := 0 to k
        invariant Invariant(aug[..], points, k) && Cleared(aug[..], k, col)
        invariant aug[col][col] == 1
        invariant forall r :: 0 <= r < row && r != col ==> aug[r][col] == 0
      {
        if row != col && aug[row][col] != 0 {
          ghost var before := aug[..];
          var f := aug[row][col];
          var sum := AddScaledRow(aug[row], f, aug[col]);
          aug[row] := sum;
          assert aug[..] == before[row := sum];
          CombineKeeps(before, points, k, col, row, f, sum);
          CombineClears(before, k, col, row, f, sum);
        }
      }
    }

    /** The inverse of the Vandermonde matrix, or None when two points coincide. */
    method InvertVandermonde(points: seq<Byte>, k: nat) returns (inv: Option<seq<seq<Byte>>>)
      requires Valid() && initialized && |points| == k
      ensures inv.Some? <==> Distinct(points)
      ensures inv.Some? ==> InvertsEvaluation(inv.value, points, k)
    {
      hide Mul, Add, Represents, KernelTrivial;
      var aug := BuildAugmented(points, k);
      for col := 0 to k
        invariant Invariant(aug[..], points, k) && Cleared(aug[..], k, col)
      {
        var pivot := FindPivot(aug, k, col);
        if pivot == k {
          if Distinct(points) {
            PivotExists(aug[..], points, k, col);
          }
          return None;
        }
        ghost var start := aug[..];
        aug[col], aug[pivot] := aug[pivot], aug[col];
        assert aug[..] == start[col := start[pivot]][pivot := start[col]];
        SwapKeeps(start, points, k, col, pivot);
        ghost var swapped := aug[..];
        var f := GfInv(aug[col][col]);
        var scaled := ScaleRow(aug[col], f);
        aug[col] := scaled;
        assert aug[..] == swapped[col := scaled];
        ScaleKeeps(swapped, points, k, col, f, scaled);
        ScaleClears(swapped, k, col, f, scaled);
        EliminateColumn(aug, points, k, col);
      }
      ghost var rows := aug[..];
      var result := seq(k, i requires 0 <= i < k reads aug, this => (if |aug[i]| >= k then aug[i][k..] else []));
      ReadInverse(rows, result, points, k);
      InvertedMeansDistinct(result, points, k);
      return Some(result);
    }

    // ----- encode and decode

    method EncodeShard(p: Bytes, k: nat, size: nat, i: nat) returns (bytes: Bytes)
      requires Valid() && initialized && k > 0 && |p| == size * k && i < 255
      ensures bytes == Shard(p, k, size, i)
    {
      hide Eval, Dot, Coefficients, PowerRow;
      var powers := AlphaPowers(i + 1, k);
      var shard := new Byte[size](_ => 0);
      for pos := 0 to size
        invariant forall t :: 0 <= t < pos ==> shard[t] == Eval(Coefficients(p, k, size, t), i + 1)
      {
        var column := Coefficients(p, k, size, pos);
        var val := DotProduct(powers, column);
        PowerRowEvaluates(i + 1, column, k);
        shard[pos] := val;
      }
      bytes := shard[..];
    }

    method Encode(data: Bytes, n: nat, k: nat) returns (r: Result<seq<Bytes>>)
      requires Valid()
      modifies this, exp, log
      ensures Valid() && (old(initialized) ==> initialized)
      ensures r == ErasureCode.Encode(data, n, k)
    {
      hide Shard, Padded;
      if !(n > k > 0) { return Failure(BadParameters); }
      if n > 255 { return Failure(TooManyPoints); }
      if |data| >= Pow256(8) { return Failure(LengthOverflow); }
      var p, size := Padded(data, k), ChunkSize(data, k);
      InitGf();
      var shards: seq<Bytes> := [];
      for i := 0 to n
        invariant Valid() && initialized && |shards| == i
        invariant forall t :: 0 <= t < i ==> shards[t] == Shard(p, k, size, t)
      {
        var shard := EncodeShard(p, k, size, i);
        shards := shards + [shard];
      }
      assert shards == ErasureCode.Encode(data, n, k).value;
      r := Success(shards);
    }

    /** Interpolate one byte position of every chunk and scatter the results. */
    method DecodePosition(inv: seq<seq<Byte>>, shards: map<nat, Bytes>, ids: seq<nat>, k: nat, size: nat,
                          pos: nat, out: array<Byte>)
      requires Valid() && initialized && |ids| == k && Usable(shards, ids, size) && pos < size
      requires InvertsEvaluation(inv, Points(ids), k)
      requires out.Length == size * k && out != exp
      modifies out
      ensures Filled(out[..], shards, ids, size, k, pos)
      ensures forall t :: 0 <= t < size * k && t % size != pos ==> out[t] == old(out[t])
    {
      hide Dot, InvertsEvaluation, Interpolant;
      var y := Column(shards, ids, pos);
      PointsDistinct(ids);
      for m := 0 to k
        invariant forall j :: 0 <= j < m ==> CellIs(out[..], size, k, j, pos, Interpolated(shards, ids, size, pos)[j])
        invariant forall t :: 0 <= t < size * k && t % size != pos ==> out[t] == old(out[t])
      {
        InverseRowShape(inv, Points(ids), k, m);
        var val := DotProduct(inv[m], y);
        InverseInterpolates(inv, Points(ids), y, k, m);
        CellBound(m, pos, size, k);
        CellParts(m, pos, size);
        ghost var before := out[..];
        out[m * size + pos] := val;
        forall j | 0 <= j < m
          ensures CellIs(out[..], size, k, j, pos, Interpolated(shards, ids, size, pos)[j])
        {
          CellBound(j, pos, size, k);
          CellParts(j, pos, size);
        }
      }
    }

    method Decode(shards: map<nat, Bytes>, k: nat) returns (r: Result<Bytes>)
      requires Valid()
      modifies this, exp, log
      ensures Valid() && (old(initialized) ==> initialized)
      ensures r == ErasureCode.Decode(shards, k)
    {
      hide Interpolated, InvertsEvaluation, Unpad;
      if |shards| < k { return Failure(TooFewShards); }
      if k == 0 { return Failure(IndexOutOfRange); }
      assert |shards.Keys| == |shards|;
      var ids: seq<nat> := Sorted(shards.Keys)[..k];
      var size := |shards[ids[0]]|;
      InitGf();
      if exists i :: 0 <= i < k && (ids[i] >= 255 || |shards[ids[i]]| < size) { return Failure(IndexOutOfRange); }
      assert Usable(shards, ids, size);
      PointsDistinct(ids);
      var inverse := InvertVandermonde(Points(ids), k);
      var out := new Byte[size * k](_ => 0);
      for pos := 0 to size
        invariant Valid() && initialized
        invariant forall t :: 0 <= t < pos ==> Filled(out[..], shards, ids, size, k, t)
      {
        ghost var before := out[..];
        DecodePosition(inverse.value, shards, ids, k, size, pos, out);
        forall t | 0 <= t < pos
          ensures Filled(out[..], shards, ids, size, k, t)
        {
          FilledKept(before, out[..], shards, ids, size, k, t, pos);
        }
      }
      var result := out[..];
      FilledAll(result, shards, ids, size, k);
      if size * k < 8 { return Failure(TruncatedPrefix); }
      r := Success(Unpad(result));
    }
  }

  lemma PowerRowEvaluates(a: Byte, c: Vector, k: nat)
    requires |c| == k
    ensures Dot(PowerRow(a, k), c, k) == Eval(c, a)
  {
    hide Eval, Dot;
    PowersEvaluate(a, PowerRow(a, k), c, k);
    assert c[..k] == c;
  }

  ghost predicate CellIs(p: Bytes, size: nat, k: nat, j: nat, pos: nat, v: Byte)
  {
    j < k && pos < size && |p| == size * k && j * size + pos < |p| && p[j * size + pos] == v
  }

  /** Position `pos` of every chunk holds its interpolated byte. */
  ghost predicate Filled(p: Bytes, shards: map<nat, Bytes>, ids: seq<nat>, size: nat, k: nat, pos: nat)
    requires |ids| == k && Usable(shards, ids, size) && pos < size
  {
    forall j :: 0 <= j < k ==> CellIs(p, size, k, j, pos, Interpolated(shards, ids, size, pos)[j])
  }

  lemma CellParts(j: nat, pos: nat, size: nat)
    requires pos < size
    ensures (j * size + pos) / size == j && (j * size + pos) % size == pos
  {
    DivModUnique(j * size + pos, size, j, pos);
  }

  lemma FilledKept(before: Bytes, after: Bytes, shards: map<nat, Bytes>, ids: seq<nat>, size: nat, k: nat, t: nat,
      pos: nat)
    requires |ids| == k && Usable(shards, ids, size) && t < size && pos != t
    requires |before| == |after| == size * k && Filled(before, shards, ids, size, k, t)
    requires forall u :: 0 <= u < size * k && u % size != pos ==> after[u] == before[u]
    ensures Filled(after, shards, ids, size, k, t)
  {
    hide Interpolated;
    forall j | 0 <= j < k
      ensures CellIs(after, size, k, j, t, Interpolated(shards, ids, size, t)[j])
    {
      assert CellIs(before, size, k, j, t, Interpolated(shards, ids, size, t)[j]);
      CellParts(j, t, size);
    }
  }

  lemma FilledAll(p: Bytes, shards: map<nat, Bytes>, ids: seq<nat>, size: nat, k: nat)
    requires |ids| == k && Usable(shards, ids, size) && |p| == size * k
    requires forall t :: 0 <= t < size ==> Filled(p, shards, ids, size, k, t)
    ensures p == Assembled(shards, ids, size)
  {
    hide Interpolated;
    forall t | 0 <= t < size * k
      ensures p[t] == Assembled(shards, ids, size)[t]
    {
      CellOf(t, size, k);
      assert t == (t / size) * size + t % size;
      assert Filled(p, shards, ids, size, k, t % size);
      assert CellIs(p, size, k, t / size, t % size, Interpolated(shards, ids, size, t % size)[t / size]);
    }
  }

  lemma InverseRowShape(inv: seq<Vector>, points: seq<Byte>, k: nat, m: nat)
    requires InvertsEvaluation(inv, points, k) && m < k
    ensures m < |inv| && |inv[m]| == k
  {
  }

  /** The inverse matrix applied to arbitrary values interpolates them. */
  lemma InverseInterpolates(inv: seq<Vector>, points: seq<Byte>, y: Vector, k: nat, m: nat)
    requires InvertsEvaluation(inv, points, k) && Distinct(points) && |y| == k && m < k
    ensures Dot(inv[m], y, k) == Interpolant(points, y)[m]
  {
    hide Dot, Eval, Interpolant;
    var c := Interpolant(points, y);
    forall i | 0 <= i < k
      ensures Eval(c, points[i]) == y[i]
    {
      InterpolantEval(points, y, i);
    }
    assert Evaluations(points, c) == y;
    assert RowInverts(inv[m], points, k, m);
  }

  lemma InitialRow(points: seq<Byte>, k: nat, i: nat, x: Vector)
    requires |points| == k == |x| && i < k
    ensures var row := PowerRow(points[i], k) + Unit(k, i);
            && Dot(row[..k], x, k) == Eval(x, points[i])
            && Dot(row[k..], Evaluations(points, x), k) == Eval(x, points[i])
  {
    hide Eval, Power, Dot;
    var row := PowerRow(points[i], k) + Unit(k, i);
    assert row[..k] == PowerRow(points[i], k) && row[k..] == Unit(k, i);
    PowersEvaluate(points[i], row[..k], x, k);
    assert x[..k] == x;
    DotUnit(row[k..], Evaluations(points, x), i, k);
  }

  lemma InitialInvariant(rows: seq<Row>, points: seq<Byte>, k: nat)
    requires |rows| == k == |points|
    requires forall r :: 0 <= r < k ==> rows[r] == PowerRow(points[r], k) + Unit(k, r)
    ensures Invariant(rows, points, k)
  {
    hide Eval, Dot, PowerRow, Unit, Evaluations;
    forall i | 0 <= i < k
      ensures Represents(rows[i], points, k)
    {
      forall x: Vector | |x| == k
        ensures Dot(rows[i][..k], x, k) == Dot(rows[i][k..], Evaluations(points, x), k)
      {
        InitialRow(points, k, i, x);
      }
    }
    forall x: Vector, i | |x| == k && Kills(rows, x, k) && 0 <= i < k
      ensures Eval(x, points[i]) == 0
    {
      InitialRow(points, k, i, x);
      assert |rows[i]| >= k;
    }
  }

  lemma CombineClears(rows: seq<Row>, k: nat, col: nat, row: nat, f: Byte, sum: Row)
    requires Shape(rows, k) && col < k && row < k && row != col && |sum| == 2 * k
    requires Cleared(rows, k, col) && rows[col][col] == 1 && f == rows[row][col]
    requires forall j :: 0 <= j < 2 * k ==> sum[j] == Add(rows[row][j], Mul(f, rows[col][j]))
    ensures Shape(rows[row := sum], k) && Cleared(rows[row := sum], k, col) && sum[col] == 0
  {
    hide Mul, Add;
    ZeroTimes(f);
    MulOne(f);
    AddLaws(f, f, f);
    forall j | 0 <= j < col
      ensures sum[j] == rows[row][j]
    {
      AddLaws(rows[row][j], 0, 0);
    }
  }

  lemma ScaleClears(rows: seq<Row>, k: nat, col: nat, f: Byte, scaled: Row)
    requires Shape(rows, k) && col < k && |scaled| == 2 * k && Cleared(rows, k, col)
    requires forall j :: 0 <= j < 2 * k ==> scaled[j] == Mul(rows[col][j], f)
    ensures Shape(rows[col := scaled], k) && Cleared(rows[col := scaled], k, col)
  {
    hide Mul;
    ZeroTimes(f);
  }

  lemma ReadInverse(rows: seq<Row>, result: seq<Vector>, points: seq<Byte>, k: nat)
    requires Invariant(rows, points, k) && Cleared(rows, k, k) && |result| == k
    requires forall i :: 0 <= i < k ==> result[i] == rows[i][k..]
    ensures InvertsEvaluation(result, points, k)
  {
    hide Dot, Evaluations;
    forall m, x: Vector {:trigger RowInverts(result[m], points, k, m), Evaluations(points, x)} | 0 <= m < k && |x| == k
      ensures Dot(result[m], Evaluations(points, x), k) == x[m]
    {
      InverseReads(rows, points, k, m, x);
    }
  }

  lemma GenPeriod255()
    ensures Gen(255) == 1
  {
    hide Gen;
    GenZero();
    GenLandmarks(0);
  }

  lemma GenStep(i: nat)
    ensures Gen(i + 1) == Double(Gen(i))
  {
  }
}
