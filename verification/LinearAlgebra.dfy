/**
 Row operations over GF(256) and what they preserve.  An augmented row [a | b] of width 2k stands
 for the claim "a . x = b . V(x) for every x", where V(x) evaluates the polynomial x at the given
 points; the elimination keeps that claim true of every row and never enlarges the set of x that
 all left halves send to zero.
 */
module LinearAlgebra {
  import opened Bytes
  import opened Galois
  import opened Polynomials

  type Row = seq<Byte>

  function Dot(a: Vector, b: Vector, n: nat): Byte
    requires n <= |a| && n <= |b|
  {
    if n == 0 then 0 else Add(Dot(a, b, n - 1), Mul(a[n - 1], b[n - 1]))
  }

  function Power(a: Byte, n: nat): Byte
  {
    if n == 0 then 1 else Mul(Power(a, n - 1), a)
  }

  function PowerRow(a: Byte, k: nat): (r: Vector)
    ensures |r| == k
  {
    seq(k, j requires 0 <= j < k => Power(a, j))
  }

  ghost function Evaluations(points: seq<Byte>, x: Vector): (y: Vector)
    ensures |y| == |points|
  {
    seq(|points|, i requires 0 <= i < |points| => Eval(x, points[i]))
  }

  function Unit(k: nat, m: nat): (u: Vector)
    ensures |u| == k
  {
    seq(k, j requires 0 <= j < k => if j == m then 1 else 0)
  }

  // ----- dot products

  lemma {:induction false} DotCombine(a: Vector, b: Vector, c: Vector, f: Byte, x: Vector, n: nat)
    requires n <= |a| && n <= |b| && n <= |c| && n <= |x|
    requires forall j :: 0 <= j < n ==> c[j] == Add(a[j], Mul(f, b[j]))
    ensures Dot(c, x, n) == Add(Dot(a, x, n), Mul(f, Dot(b, x, n)))
  {
    hide Add, Mul;
    if n == 0 {
      ZeroTimes(f);
      AddLaws(0, 0, 0);
    } else {
      DotCombine(a, b, c, f, x, n - 1);
      var i := n - 1;
      var A, B := Dot(a, x, i), Dot(b, x, i);
      MulAddLeft(a[i], Mul(f, b[i]), x[i]);
      MulAssoc(f, b[i], x[i]);
      AddSwap(A, Mul(f, B), Mul(a[i], x[i]), Mul(f, Mul(b[i], x[i])));
      Distribute(f, B, Mul(b[i], x[i]));
    }
  }

  lemma {:induction false} DotScale(a: Vector, c: Vector, f: Byte, x: Vector, n: nat)
    requires n <= |a| && n <= |c| && n <= |x|
    requires forall j :: 0 <= j < n ==> c[j] == Mul(a[j], f)
    ensures Dot(c, x, n) == Mul(f, Dot(a, x, n))
  {
    hide Add, Mul;
    if n == 0 {
      ZeroTimes(f);
    } else {
      DotScale(a, c, f, x, n - 1);
      var i := n - 1;
      MulComm(a[i], f);
      MulAssoc(f, a[i], x[i]);
      Distribute(f, Dot(a, x, i), Mul(a[i], x[i]));
    }
  }

  /** A row that is zero except for a one at m picks out component m. */
  lemma {:induction false} DotUnit(a: Vector, x: Vector, m: nat, n: nat)
    requires n <= |a| && n <= |x|
    requires forall j :: 0 <= j < n ==> a[j] == if j == m then 1 else 0
    ensures Dot(a, x, n) == if m < n then x[m] else 0
  {
    hide Add, Mul;
    if n != 0 {
      DotUnit(a, x, m, n - 1);
      var i := n - 1;
      ZeroTimes(x[i]);
      MulOne(x[i]);
      AddLaws(x[i], 0, 0);
      AddLaws(0, 0, 0);
      if m < i {
        AddLaws(x[m], 0, 0);
      }
    }
  }

  lemma {:induction false} EvalSnoc(c: Vector, d: Byte, x: Byte)
    ensures Eval(c + [d], x) == Add(Eval(c, x), Mul(Power(x, |c|), d))
  {
    hide Add, Mul;
    if c == [] {
      assert (c + [d])[1..] == [];
      ZeroTimes(x);
      AddLaws(d, 0, 0);
      MulOne(d);
    } else {
      var t := c[1..];
      EvalSnoc(t, d, x);
      assert (c + [d])[1..] == t + [d];
      var e, w := Eval(t, x), Mul(Power(x, |t|), d);
      Distribute(x, e, w);
      AddLaws(c[0], Mul(x, e), Mul(x, w));
      MulAssoc(x, Power(x, |t|), d);
      MulComm(x, Power(x, |t|));
    }
  }

  /** The row of powers evaluates a polynomial. */
  lemma {:induction false} PowersEvaluate(a: Byte, r: Vector, c: Vector, n: nat)
    requires n <= |r| && n <= |c|
    requires forall j :: 0 <= j < n ==> r[j] == Power(a, j)
    ensures Dot(r, c, n) == Eval(c[..n], a)
  {
    hide Add, Mul, Power;
    if n != 0 {
      PowersEvaluate(a, r, c, n - 1);
      EvalSnoc(c[..n - 1], c[n - 1], a);
      assert c[..n] == c[..n - 1] + [c[n - 1]];
    }
  }

  // ----- what the elimination preserves

  ghost predicate Represents(row: Row, points: seq<Byte>, k: nat)
  {
    && |row| == 2 * k && |points| == k
    && forall x: Vector {:trigger Evaluations(points, x)} :: |x| == k ==>
         Dot(row[..k], x, k) == Dot(row[k..], Evaluations(points, x), k)
  }

  ghost predicate Kills(rows: seq<Row>, x: Vector, k: nat)
    requires |x| == k
  {
    forall i :: 0 <= i < |rows| && |rows[i]| >= k ==> Dot(rows[i][..k], x, k) == 0
  }

  /** Only polynomials vanishing at every point are sent to zero by all left halves. */
  ghost predicate KernelTrivial(rows: seq<Row>, points: seq<Byte>, k: nat)
  {
    forall x: Vector :: |x| == k && Kills(rows, x, k) ==> forall i :: 0 <= i < |points| ==> Eval(x, points[i]) == 0
  }

  ghost predicate Shape(rows: seq<Row>, k: nat)
  {
    |rows| == k && forall i :: 0 <= i < k ==> |rows[i]| == 2 * k
  }

  ghost predicate Invariant(rows: seq<Row>, points: seq<Byte>, k: nat)
  {
    && Shape(rows, k) && |points| == k
    && (forall i :: 0 <= i < k ==> Represents(rows[i], points, k))
    && KernelTrivial(rows, points, k)
  }

  /** The first `cols` columns of the left half are those of the identity matrix. */
  ghost predicate Cleared(rows: seq<Row>, k: nat, cols: nat)
    requires Shape(rows, k) && cols <= k
  {
    forall i, j :: 0 <= i < k && 0 <= j < cols ==> rows[i][j] == if i == j then 1 else 0
  }

  lemma ScaleRepresents(row: Row, scaled: Row, f: Byte, points: seq<Byte>, k: nat)
    requires Represents(row, points, k) && |scaled| == 2 * k
    requires forall j :: 0 <= j < 2 * k ==> scaled[j] == Mul(row[j], f)
    ensures Represents(scaled, points, k)
  {
    hide Add, Mul, Dot, Evaluations;
    forall x: Vector | |x| == k
      ensures Dot(scaled[..k], x, k) == Dot(scaled[k..], Evaluations(points, x), k)
    {
      DotScale(row[..k], scaled[..k], f, x, k);
      DotScale(row[k..], scaled[k..], f, Evaluations(points, x), k);
    }
  }

  lemma CombineRepresents(row: Row, pivot: Row, sum: Row, f: Byte, points: seq<Byte>, k: nat)
    requires Represents(row, points, k) && Represents(pivot, points, k) && |sum| == 2 * k
    requires forall j :: 0 <= j < 2 * k ==> sum[j] == Add(row[j], Mul(f, pivot[j]))
    ensures Represents(sum, points, k)
  {
    hide Add, Mul, Dot, Evaluations;
    forall x: Vector | |x| == k
      ensures Dot(sum[..k], x, k) == Dot(sum[k..], Evaluations(points, x), k)
    {
      DotCombine(row[..k], pivot[..k], sum[..k], f, x, k);
      DotCombine(row[k..], pivot[k..], sum[k..], f, Evaluations(points, x), k);
    }
  }

  /** Exchanging two rows. */
  lemma SwapKeeps(rows: seq<Row>, points: seq<Byte>, k: nat, c: nat, p: nat)
    requires Invariant(rows, points, k) && c < k && p < k
    ensures Invariant(rows[c := rows[p]][p := rows[c]], points, k)
  {
    hide Represents, Dot;
    var swapped := rows[c := rows[p]][p := rows[c]];
    forall x: Vector | |x| == k && Kills(swapped, x, k)
      ensures Kills(rows, x, k)
    {
      forall i | 0 <= i < k
        ensures Dot(rows[i][..k], x, k) == 0
      {
        assert rows[i] == swapped[if i == c then p else if i == p then c else i];
      }
    }
  }

  /** Multiplying a row by a non-zero factor. */
  lemma ScaleKeeps(rows: seq<Row>, points: seq<Byte>, k: nat, c: nat, f: Byte, scaled: Row)
    requires Invariant(rows, points, k) && c < k && f != 0 && |scaled| == 2 * k
    requires forall j :: 0 <= j < 2 * k ==> scaled[j] == Mul(rows[c][j], f)
    ensures Invariant(rows[c := scaled], points, k)
  {
    hide Represents, Dot, Mul;
    var rows' := rows[c := scaled];
    ScaleRepresents(rows[c], scaled, f, points, k);
    forall x: Vector | |x| == k && Kills(rows', x, k)
      ensures Kills(rows, x, k)
    {
      forall i | 0 <= i < k
        ensures Dot(rows[i][..k], x, k) == 0
      {
        if i == c {
          assert rows'[c] == scaled;
          DotScale(rows[c][..k], scaled[..k], f, x, k);
          Generator.NoZeroDivisors(f, Dot(rows[c][..k], x, k));
        } else {
          assert rows'[i] == rows[i];
        }
      }
    }
  }

  /** Adding a multiple of one row to another. */
  lemma CombineKeeps(rows: seq<Row>, points: seq<Byte>, k: nat, c: nat, r: nat, f: Byte, sum: Row)
    requires Invariant(rows, points, k) && c < k && r < k && c != r && |sum| == 2 * k
    requires forall j :: 0 <= j < 2 * k ==> sum[j] == Add(rows[r][j], Mul(f, rows[c][j]))
    ensures Invariant(rows[r := sum], points, k)
  {
    hide Represents, Dot, Mul, Add;
    var rows' := rows[r := sum];
    CombineRepresents(rows[r], rows[c], sum, f, points, k);
    forall x: Vector | |x| == k && Kills(rows', x, k)
      ensures Kills(rows, x, k)
    {
      forall i | 0 <= i < k
        ensures Dot(rows[i][..k], x, k) == 0
      {
        if i == r {
          assert rows'[r] == sum && rows'[c] == rows[c];
          DotCombine(rows[r][..k], rows[c][..k], sum[..k], f, x, k);
          ZeroTimes(f);
          AddLaws(Dot(rows[r][..k], x, k), 0, 0);
        } else {
          assert rows'[i] == rows[i];
        }
      }
    }
  }

  // ----- a pivot always exists

  /** The vector that column `col` would send to zero if it had no pivot. */
  function Dependency(rows: seq<Row>, k: nat, col: nat): (x: Vector)
    requires |rows| == k && col < k && forall i :: 0 <= i < k ==> |rows[i]| == 2 * k
    ensures |x| == k
  {
    seq(k, j requires 0 <= j < k => if j < col then rows[j][col] else if j == col then 1 else 0)
  }

  lemma {:induction false} DependencyDot(rows: seq<Row>, k: nat, col: nat, i: nat, n: nat)
    requires Shape(rows, k) && col < k && Cleared(rows, k, col) && i < k && n <= k
    requires forall r :: col <= r < k ==> rows[r][col] == 0
    ensures Dot(rows[i][..k], Dependency(rows, k, col), n)
         == if i < n <= col then rows[i][col] else 0
  {
    hide Add, Mul;
    if n != 0 {
      DependencyDot(rows, k, col, i, n - 1);
      var x := Dependency(rows, k, col);
      var j := n - 1;
      ZeroTimes(x[j]);
      ZeroTimes(rows[i][j]);
      MulOne(x[j]);
      MulOne(rows[i][j]);
      AddLaws(x[j], 0, 0);
      AddLaws(rows[i][col], 0, 0);
      AddLaws(0, 0, 0);
    }
  }

  /** With distinct points the elimination never runs out of pivots. */
  lemma PivotExists(rows: seq<Row>, points: seq<Byte>, k: nat, col: nat)
    requires Invariant(rows, points, k) && Distinct(points) && col < k && Cleared(rows, k, col)
    ensures exists r :: col <= r < k && rows[r][col] != 0
  {
    hide Represents, Dot, Eval;
    if forall r :: col <= r < k ==> rows[r][col] == 0 {
      var x := Dependency(rows, k, col);
      assert Kills(rows, x, k) by {
        forall i | 0 <= i < k
          ensures Dot(rows[i][..k], x, k) == 0
        {
          DependencyDot(rows, k, col, i, k);
        }
      }
      assert x[col] != 0;
      RootBound(x, points);
    }
  }

  // ----- reading off the inverse

  /** Once the left half is the identity, the right half inverts evaluation. */
  lemma InverseReads(rows: seq<Row>, points: seq<Byte>, k: nat, m: nat, x: Vector)
    requires Invariant(rows, points, k) && Cleared(rows, k, k) && m < k && |x| == k
    ensures Dot(rows[m][k..], Evaluations(points, x), k) == x[m]
  {
    hide Dot;
    assert Represents(rows[m], points, k);
    DotUnit(rows[m][..k], x, m, k);
  }

  /** A polynomial of full length that vanishes everywhere exists as soon as a point is repeated. */
  lemma RepeatedPoint(points: seq<Byte>, i: nat, j: nat) returns (c: Vector)
    requires i < j < |points| && points[i] == points[j]
    ensures |c| == |points| && c[|c| - 1] == 1
    ensures forall t :: 0 <= t < |points| ==> Eval(c, points[t]) == 0
  {
    hide Eval;
    var rest := points[..j] + points[j + 1..];
    c := Vanishing(rest);
    VanishingRoots(rest);
    forall t | 0 <= t < |points|
      ensures Eval(c, points[t]) == 0
    {
      var u := if t < j then t else if t == j then i else t - 1;
      assert rest[u] == points[t];
    }
  }

  lemma {:induction false} DotZero(a: Vector, y: Vector, n: nat)
    requires n <= |a| && n <= |y| && forall t :: 0 <= t < n ==> y[t] == 0
    ensures Dot(a, y, n) == 0
  {
    if n != 0 {
      DotZero(a, y, n - 1);
      ZeroTimes(a[n - 1]);
    }
  }

  ghost predicate InvertsEvaluation(inv: seq<Vector>, points: seq<Byte>, k: nat)
  {
    && |inv| == k && |points| == k
    && forall m :: 0 <= m < k ==> |inv[m]| == k && RowInverts(inv[m], points, k, m)
  }

  ghost predicate RowInverts(row: Vector, points: seq<Byte>, k: nat, m: nat)
    requires |row| == k && |points| == k && m < k
  {
    forall x: Vector {:trigger Evaluations(points, x)} :: |x| == k ==> Dot(row, Evaluations(points, x), k) == x[m]
  }

  /** The elimination cannot succeed on repeated points. */
  lemma InvertedMeansDistinct(inv: seq<Vector>, points: seq<Byte>, k: nat)
    requires InvertsEvaluation(inv, points, k)
    ensures Distinct(points)
  {
    hide Eval, Dot;
    forall i, j | 0 <= i < j < |points|
      ensures points[i] != points[j]
    {
      if points[i] == points[j] {
        var c := RepeatedPoint(points, i, j);
        assert RowInverts(inv[k - 1], points, k, k - 1);
        DotZero(inv[k - 1], Evaluations(points, c), k);
      }
    }
  }

  ghost function MatrixColumn(points: seq<Byte>, k: nat, l: nat): (y: Vector)
    ensures |y| == |points|
  {
    seq(|points|, i requires 0 <= i < |points| => Power(points[i], l))
  }

  /** Inverse matrix times Vandermonde matrix is the identity. */
  lemma InverseTimesVandermonde(inv: seq<Vector>, points: seq<Byte>, k: nat, m: nat, l: nat)
    requires InvertsEvaluation(inv, points, k) && m < k && l < k
    ensures Dot(inv[m], MatrixColumn(points, k, l), k) == if m == l then 1 else 0
  {
    hide Eval, Dot, Power;
    var e := Unit(k, l);
    forall i | 0 <= i < k
      ensures Eval(e, points[i]) == Power(points[i], l)
    {
      var r := PowerRow(points[i], k);
      PowersEvaluate(points[i], r, e, k);
      assert e[..k] == e;
      DotUnitRight(r, e, l, k);
    }
    assert MatrixColumn(points, k, l) == Evaluations(points, e);
    assert RowInverts(inv[m], points, k, m);
  }

  lemma {:induction false} DotUnitRight(a: Vector, e: Vector, l: nat, n: nat)
    requires n <= |a| && n <= |e|
    requires forall j :: 0 <= j < n ==> e[j] == if j == l then 1 else 0
    ensures Dot(a, e, n) == if l < n then a[l] else 0
  {
    hide Add, Mul;
    if n != 0 {
      DotUnitRight(a, e, l, n - 1);
      var i := n - 1;
      ZeroTimes(a[i]);
      MulOne(a[i]);
      AddLaws(a[i], 0, 0);
      AddLaws(0, 0, 0);
      if l < i {
        AddLaws(a[l], 0, 0);
      }
    }
  }
}
