/**
 Polynomials over GF(256): evaluation, division by a linear factor, the bound on the number of
 roots, and interpolation through distinct points.
 */
module Polynomials {
  import opened Bytes
  import opened Galois
  import opened Generator

  /** Coefficients, constant term first. */
  type Vector = seq<Byte>

  function Eval(c: Vector, x: Byte): Byte
  {
    if c == [] then 0 else Add(c[0], Mul(x, Eval(c[1..], x)))
  }

  ghost predicate Distinct(s: seq<Byte>)
  {
    forall i, j :: 0 <= i < j < |s| ==> s[i] != s[j]
  }

  ghost predicate AllZero(c: Vector)
  {
    forall i :: 0 <= i < |c| ==> c[i] == 0
  }

  // ----- roots

  /** The quotient of c by (x - p), which is (x + p). */
  ghost function Quotient(c: Vector, p: Byte): (q: Vector)
    ensures |q| == if |c| == 0 then 0 else |c| - 1
  {
    if |c| <= 1 then [] else [Eval(c[1..], p)] + Quotient(c[1..], p)
  }

  /** a + p*(b + q) rearranged; the algebra behind synthetic division. */
  lemma DivisionAlgebra(c0: Byte, x: Byte, p: Byte, e: Byte, r: Byte)
    ensures Add(c0, Mul(x, Add(Mul(Add(x, p), e), r)))
         == Add(Mul(Add(x, p), Add(r, Mul(x, e))), Add(c0, Mul(p, r)))
  {
    hide Add, Mul;
    var s := Add(x, p);
    var A, B, C, D := Mul(s, Mul(x, e)), Mul(x, r), Mul(p, r), Mul(s, r);
    assert Mul(x, Add(Mul(s, e), r)) == Add(A, B) by {
      Distribute(x, Mul(s, e), r);
      MulAssoc(x, s, e);
      MulComm(x, s);
      MulAssoc(s, x, e);
    }
    assert Mul(s, Add(r, Mul(x, e))) == Add(D, A) by {
      Distribute(s, r, Mul(x, e));
    }
    assert D == Add(B, C) by { MulAddLeft(x, p, r); }
    calc {
      Add(Add(D, A), Add(c0, C));
      Add(Add(Add(B, C), A), Add(c0, C));
      { AddLaws(Add(B, C), A, A); AddLaws(A, Add(B, C), Add(c0, C)); AddLaws(c0, C, C); }
      Add(A, Add(Add(B, C), Add(C, c0)));
      { AddLaws(Add(B, C), C, c0); AddCancel(B, C); }
      Add(A, Add(B, c0));
      { AddLaws(A, B, c0); AddLaws(Add(A, B), c0, c0); }
      Add(c0, Add(A, B));
    }
  }

  lemma {:induction false} Division(c: Vector, p: Byte, x: Byte)
    ensures Eval(c, x) == Add(Mul(Add(x, p), Eval(Quotient(c, p), x)), Eval(c, p))
  {
    hide Add, Mul;
    var s := Add(x, p);
    if |c| <= 1 {
      assert Eval(Quotient(c, p), x) == 0;
      ZeroTimes(s);
      if |c| == 1 {
        assert c[1..] == [];
        ZeroTimes(x);
        ZeroTimes(p);
      }
      AddLaws(Eval(c, p), 0, 0);
    } else {
      var t := c[1..];
      Division(t, p, x);
      var q := Quotient(t, p);
      assert Quotient(c, p)[0] == Eval(t, p) && Quotient(c, p)[1..] == q;
      DivisionAlgebra(c[0], x, p, Eval(q, x), Eval(t, p));
    }
  }

  lemma ZeroTimes(a: Byte)
    ensures Mul(a, 0) == 0 && Mul(0, a) == 0
  {
    MulZero(a);
  }

  lemma {:induction false} EvalZero(c: Vector, x: Byte)
    requires AllZero(c)
    ensures Eval(c, x) == 0
  {
    if c != [] {
      EvalZero(c[1..], x);
      ZeroTimes(x);
    }
  }

  /** Zero quotient and zero remainder leave only the zero polynomial. */
  lemma {:induction false} ZeroQuotient(c: Vector, p: Byte)
    requires AllZero(Quotient(c, p)) && Eval(c, p) == 0
    ensures AllZero(c)
  {
    hide Add, Mul;
    if c != [] {
      var t := c[1..];
      if t == [] {
        ZeroTimes(p);
      } else {
        assert Quotient(c, p)[0] == Eval(t, p);
        assert Quotient(c, p)[1..] == Quotient(t, p);
        ZeroQuotient(t, p);
        ZeroTimes(p);
      }
      AddLaws(c[0], 0, 0);
      assert c == [c[0]] + t;
    }
  }

  /** A polynomial with as many distinct roots as coefficients is zero. */
  lemma {:induction false} RootBound(c: Vector, points: seq<Byte>)
    requires Distinct(points) && |points| >= |c|
    requires forall i :: 0 <= i < |points| ==> Eval(c, points[i]) == 0
    ensures AllZero(c)
    decreases |c|
  {
    hide Add, Mul, Eval, Quotient;
    if c != [] {
      var p, rest := points[0], points[1..];
      var q := Quotient(c, p);
      forall i | 0 <= i < |rest|
        ensures Eval(q, rest[i]) == 0
      {
        var x := rest[i];
        assert x == points[i + 1] && x != p;
        Division(c, p, x);
        AddLaws(Mul(Add(x, p), Eval(q, x)), 0, 0);
        AddCancel(x, p);
        NoZeroDivisors(Add(x, p), Eval(q, x));
      }
      RootBound(q, rest);
      ZeroQuotient(c, p);
    }
  }

  // ----- interpolation

  ghost function Inverse(a: Byte): (b: Byte)
    requires a != 0
    ensures Mul(a, b) == 1
  {
    InverseExists(a);
    var b: Byte :| b != 0 && Mul(a, b) == 1;
    b
  }

  /** The coefficients of y + (x + p) * q. */
  ghost function TimesLinear(q: Vector, p: Byte, y: Byte): (c: Vector)
    ensures |c| == |q| + 1
  {
    if q == [] then [y] else [Add(y, Mul(p, q[0]))] + TimesLinear(q[1..], p, q[0])
  }

  lemma {:induction false} TimesLinearEval(q: Vector, p: Byte, y: Byte, x: Byte)
    ensures Eval(TimesLinear(q, p, y), x) == Add(y, Mul(Add(x, p), Eval(q, x)))
  {
    hide Add, Mul;
    if q == [] {
      assert TimesLinear(q, p, y)[1..] == [];
      ZeroTimes(x);
      ZeroTimes(Add(x, p));
    } else {
      var t := q[1..];
      TimesLinearEval(t, p, q[0], x);
      assert TimesLinear(q, p, y)[1..] == TimesLinear(t, p, q[0]);
      var e := Eval(t, x);
      var s := Add(x, p);
      calc {
        Eval(TimesLinear(q, p, y), x);
        Add(Add(y, Mul(p, q[0])), Mul(x, Add(q[0], Mul(s, e))));
        { AddLaws(q[0], Mul(s, e), 0); AddLaws(y, Mul(p, q[0]), 0); }
        Add(Add(y, Mul(p, q[0])), Mul(x, Add(Mul(s, e), q[0])));
        { AddLaws(y, Mul(p, q[0]), Mul(x, Add(Mul(s, e), q[0]))); }
        Add(y, Add(Mul(p, q[0]), Mul(x, Add(Mul(s, e), q[0]))));
        { DivisionAlgebra(Mul(p, q[0]), x, p, e, q[0]); AddLaws(Mul(p, q[0]), 0, 0); }
        Add(y, Add(Mul(s, Add(q[0], Mul(x, e))), 0));
        { AddLaws(Mul(s, Add(q[0], Mul(x, e))), 0, 0); }
        Add(y, Mul(s, Eval(q, x)));
      }
    }
  }

  /** The slope between two points of different abscissa. */
  ghost function Slope(p: Byte, y: Byte, p0: Byte, y0: Byte): Byte
    requires p != p0
  {
    AddCancel(p, p0);
    Mul(Add(y, y0), Inverse(Add(p, p0)))
  }

  /** Slopes from the first point to each of the others. */
  ghost function Slopes(points: seq<Byte>, values: Vector): (z: Vector)
    requires |points| == |values| > 0 && Distinct(points)
    ensures |z| == |points| - 1
  {
    seq(|points| - 1, i requires 0 <= i < |points| - 1 => Slope(points[i + 1], values[i + 1], points[0], values[0]))
  }

  /** The unique polynomial with |points| coefficients through the given values. */
  ghost function Interpolant(points: seq<Byte>, values: Vector): (c: Vector)
    requires |points| == |values| && Distinct(points)
    ensures |c| == |points|
    decreases |points|
  {
    if points == [] then []
    else TimesLinear(Interpolant(points[1..], Slopes(points, values)), points[0], values[0])
  }

  lemma {:induction false} InterpolantEval(points: seq<Byte>, values: Vector, i: nat)
    requires |points| == |values| && Distinct(points) && i < |points|
    ensures Eval(Interpolant(points, values), points[i]) == values[i]
    decreases |points|
  {
    hide Add, Mul, Eval, TimesLinear;
    var p, y := points[0], values[0];
    var z := Slopes(points, values);
    var q := Interpolant(points[1..], z);
    TimesLinearEval(q, p, y, points[i]);
    if i == 0 {
      AddCancel(p, p);
      ZeroTimes(Eval(q, p));
      AddLaws(y, 0, 0);
    } else {
      InterpolantEval(points[1..], z, i - 1);
      var d := Add(points[i], p);
      var w := Add(values[i], y);
      AddCancel(points[i], p);
      calc {
        Mul(d, Mul(w, Inverse(d)));
        { MulComm(w, Inverse(d)); MulAssoc(d, Inverse(d), w); }
        Mul(Mul(d, Inverse(d)), w);
        { MulOne(w); }
        w;
      }
      AddLaws(y, w, 0);
      AddCancel(values[i], y);
    }
  }

  /** The product of (x + p) over the given points. */
  ghost function Vanishing(points: seq<Byte>): (c: Vector)
    ensures |c| == |points| + 1
  {
    if points == [] then [1] else TimesLinear(Vanishing(points[1..]), points[0], 0)
  }

  lemma {:induction false} TimesLinearLeads(q: Vector, p: Byte, y: Byte)
    requires q != []
    ensures TimesLinear(q, p, y)[|q|] == q[|q| - 1]
  {
    if |q| > 1 {
      TimesLinearLeads(q[1..], p, q[0]);
    }
  }

  lemma {:induction false} VanishingRoots(points: seq<Byte>)
    ensures Vanishing(points)[|points|] == 1
    ensures forall i :: 0 <= i < |points| ==> Eval(Vanishing(points), points[i]) == 0
  {
    hide Add, Mul, Eval, TimesLinear;
    if points != [] {
      var p, rest := points[0], points[1..];
      var q := Vanishing(rest);
      VanishingRoots(rest);
      TimesLinearLeads(q, p, 0);
      forall i | 0 <= i < |points|
        ensures Eval(Vanishing(points), points[i]) == 0
      {
        TimesLinearEval(q, p, 0, points[i]);
        AddLaws(0, 0, 0);
        AddCancel(p, p);
        ZeroTimes(Add(points[i], p));
        ZeroTimes(Eval(q, points[i]));
        assert i > 0 ==> points[i] == rest[i - 1];
      }
    }
  }

  lemma {:induction false} EvalAdd(a: Vector, b: Vector, c: Vector, x: Byte)
    requires |a| == |b| == |c|
    requires forall i :: 0 <= i < |a| ==> c[i] == Add(a[i], b[i])
    ensures Eval(c, x) == Add(Eval(a, x), Eval(b, x))
  {
    hide Add, Mul;
    if a != [] {
      EvalAdd(a[1..], b[1..], c[1..], x);
      var p, q := Eval(a[1..], x), Eval(b[1..], x);
      Distribute(x, p, q);
      AddSwap(a[0], b[0], Mul(x, p), Mul(x, q));
    } else {
      AddLaws(0, 0, 0);
    }
  }

  /** Interpolation is unique: agreeing at as many points as coefficients means being equal. */
  lemma InterpolantUnique(points: seq<Byte>, values: Vector, c: Vector)
    requires |points| == |values| == |c| && Distinct(points)
    requires forall i :: 0 <= i < |points| ==> Eval(c, points[i]) == values[i]
    ensures c == Interpolant(points, values)
  {
    hide Add, Mul, Eval, Interpolant;
    var d := Interpolant(points, values);
    var e := seq(|c|, i requires 0 <= i < |c| => Add(c[i], d[i]));
    forall i | 0 <= i < |points|
      ensures Eval(e, points[i]) == 0
    {
      EvalAdd(c, d, e, points[i]);
      InterpolantEval(points, values, i);
      AddCancel(values[i], values[i]);
    }
    RootBound(e, points);
    forall i | 0 <= i < |c|
      ensures c[i] == d[i]
    {
      assert e[i] == 0;
      AddCancel(c[i], d[i]);
    }
  }
}
