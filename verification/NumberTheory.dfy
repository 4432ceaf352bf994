/**
 Powers modulo n, primes, Euclid's lemma, Fermat's little theorem and the infinitude of primes:
 what the primality test and the delay-function proof rest on.
 */
module NumberTheory {
  import opened Arithmetic

  function Pow(b: int, e: nat): int
  {
    if e == 0 then 1 else b * Pow(b, e - 1)
  }

  lemma {:induction false} PowAdd(b: int, e: nat, f: nat)
    ensures Pow(b, e + f) == Pow(b, e) * Pow(b, f)
  {
    if e != 0 {
      PowAdd(b, e - 1, f);
      assert b * (Pow(b, e - 1) * Pow(b, f)) == (b * Pow(b, e - 1)) * Pow(b, f);
    }
  }

  lemma {:induction false} PowPow(b: int, e: nat, f: nat)
    ensures e * f >= 0 && Pow(Pow(b, e), f) == Pow(b, e * f)
  {
    if f != 0 {
      PowPow(b, e, f - 1);
      assert e * f == e + e * (f - 1);
      PowAdd(b, e, e * (f - 1));
    }
  }

  lemma {:induction false} PowPositive(b: int, e: nat)
    requires b > 0
    ensures Pow(b, e) > 0
  {
    if e != 0 {
      PowPositive(b, e - 1);
    }
  }

  lemma {:induction false} PowMod(b: int, e: nat, m: int)
    requires m > 0
    ensures Pow(b % m, e) % m == Pow(b, e) % m
  {
    if e != 0 {
      PowMod(b, e - 1, m);
      var x := Pow(b % m, e - 1);
      var y := Pow(b, e - 1);
      ModCongruent(x, y, m, b % m);
      ModMul(b, y, m);
    }
  }

  /** Python's three-argument pow. */
  function ModPow(b: int, e: nat, m: nat): (r: nat)
    requires m > 0
    ensures r < m
  {
    Pow(b, e) % m
  }

  // ----- primes

  ghost predicate IsPrime(p: int)
  {
    p >= 2 && forall d :: 2 <= d < p ==> p % d != 0
  }

  lemma {:induction false} EuclidSmall(p: int, a: int, b: int)
    requires IsPrime(p) && 0 < a < p && (a * b) % p == 0
    ensures b % p == 0
    decreases a
  {
    if a != 1 {
      var q, r := p / a, p % a;
      assert r != 0;
      var s := (a * b) / p;
      assert a * b == s * p;
      assert r * b == (b - q * s) * p by {
        assert p == q * a + r;
        assert r * b == p * b - q * (a * b) by {
          assert (p - q * a) * b == p * b - q * a * b;
        }
        assert p * b - q * (s * p) == (b - q * s) * p;
      }
      ModZero(r * b, p, b - q * s);
      EuclidSmall(p, r, b);
    }
  }

  /** A prime dividing a product divides a factor. */
  lemma Euclid(p: int, a: int, b: int)
    requires IsPrime(p) && (a * b) % p == 0
    ensures a % p == 0 || b % p == 0
  {
    if a % p != 0 {
      ModMul(a, b, p);
      EuclidSmall(p, a % p, b);
    }
  }

  // ----- binomial coefficients

  ghost function Choose(n: nat, k: nat): nat
  {
    if k == 0 then 1 else if n == 0 then 0 else Choose(n - 1, k - 1) + Choose(n - 1, k)
  }

  lemma {:induction false} ChooseOutside(n: nat, k: nat)
    requires k > n
    ensures Choose(n, k) == 0
  {
    if n != 0 {
      ChooseOutside(n - 1, k - 1);
      ChooseOutside(n - 1, k);
    }
  }

  lemma {:induction false} ChooseAll(n: nat)
    ensures Choose(n, n) == 1
  {
    if n != 0 {
      ChooseAll(n - 1);
      ChooseOutside(n - 1, n);
    }
  }

  lemma Pascal(n: nat, k: nat)
    requires n >= 1 && k >= 1
    ensures Choose(n, k) == Choose(n - 1, k - 1) + Choose(n - 1, k)
    ensures Choose(n, 0) == 1 && Choose(n - 1, 0) == 1
    ensures Choose(0, k) == 0
  {
  }

  lemma AbsorbAlgebra(n: int, k: int, c: int, d: int, u: int, v: int)
    requires (k - 1) * c == (n - 1) * u && k * d == (n - 1) * v && c == u + v
    ensures k * (c + d) == n * c
  {
    assert k * (c + d) == c + (k - 1) * c + k * d;
    assert (n - 1) * u + (n - 1) * v == (n - 1) * c;
  }

  lemma {:induction false} Absorb(n: nat, k: nat)
    requires n >= 1 && k >= 1
    ensures k * Choose(n, k) == n * Choose(n - 1, k - 1)
  {
    hide Choose;
    Pascal(n, k);
    if n == 1 {
      if k > 1 {
        Pascal(n, k - 1);
      }
    } else {
      var c, d := Choose(n - 1, k - 1), Choose(n - 1, k);
      Absorb(n - 1, k);
      if k == 1 {
        Pascal(n - 1, 1);
        AbsorbAlgebra(n, 1, c, d, 0, c);
      } else {
        Absorb(n - 1, k - 1);
        Pascal(n - 1, k - 1);
        AbsorbAlgebra(n, k, c, d, Choose(n - 2, k - 2), Choose(n - 2, k - 1));
      }
    }
  }

  lemma PrimeDividesChoose(p: int, k: nat)
    requires IsPrime(p) && 0 < k < p
    ensures Choose(p, k) % p == 0
  {
    hide Choose;
    Absorb(p, k);
    ModZero(k * Choose(p, k), p, Choose(p - 1, k - 1));
    ModSmall(k, p);
    Euclid(p, k, Choose(p, k));
  }

  /** Terms 0..m of the binomial expansion of (1 + a)^n. */
  ghost function Expansion(n: nat, a: int, m: nat): int
  {
    if m == 0 then 1 else Expansion(n, a, m - 1) + Choose(n, m) * Pow(a, m)
  }

  lemma ExpansionNext(n: nat, a: int, m: nat)
    requires m >= 1
    ensures Expansion(n, a, m) == Expansion(n, a, m - 1) + Choose(n, m) * Pow(a, m)
    ensures Expansion(n, a, 0) == 1 && Pow(a, m) == a * Pow(a, m - 1)
  {
  }

  /** Pascal's rule for one term of the expansion. */
  lemma TermStep(n: nat, a: int, m: nat)
    requires n >= 1 && m >= 1
    ensures Choose(n, m) * Pow(a, m) == Choose(n - 1, m) * Pow(a, m) + a * (Choose(n - 1, m - 1) * Pow(a, m - 1))
  {
    hide Choose, Pow, Expansion;
    Pascal(n, m);
    ExpansionNext(n, a, m);
    TermAlgebra(Choose(n - 1, m), Choose(n - 1, m - 1), a, Pow(a, m - 1));
  }

  lemma TermAlgebra(c: int, d: int, a: int, x: int)
    ensures (c + d) * (a * x) == c * (a * x) + a * (d * x)
  {
    assert d * (a * x) == a * (d * x);
  }

  lemma {:induction false} ExpansionStep(n: nat, a: int, m: nat)
    requires n >= 1 && m >= 1
    ensures Expansion(n, a, m) == Expansion(n - 1, a, m) + a * Expansion(n - 1, a, m - 1)
  {
    hide Choose, Pow, Expansion;
    var x := Pow(a, m - 1);
    TermStep(n, a, m);
    ExpansionNext(n, a, m);
    ExpansionNext(n - 1, a, m);
    if m == 1 {
      FirstTerm(n - 1, a);
    } else {
      ExpansionStep(n, a, m - 1);
      ExpansionNext(n - 1, a, m - 1);
      var e := Expansion(n - 1, a, m - 2);
      assert a * (e + Choose(n - 1, m - 1) * x) == a * e + a * (Choose(n - 1, m - 1) * x);
    }
  }

  lemma FirstTerm(n: nat, a: int)
    ensures Choose(n, 0) == 1 && Pow(a, 0) == 1
  {
  }

  lemma {:induction false} BinomialTheorem(n: nat, a: int)
    ensures Expansion(n, a, n) == Pow(1 + a, n)
  {
    hide Choose, Expansion;
    if n == 0 {
      ExpansionLast(0, a);
    } else {
      BinomialTheorem(n - 1, a);
      ExpansionStep(n, a, n);
      ChooseOutside(n - 1, n);
      ExpansionLast(n - 1, a);
      var e := Pow(1 + a, n - 1);
      assert e + a * e == (1 + a) * e;
    }
  }

  lemma ExpansionLast(n: nat, a: int)
    ensures Expansion(n, a, 0) == 1
    ensures Expansion(n, a, n + 1) == Expansion(n, a, n)
  {
    ChooseOutside(n, n + 1);
  }

  lemma {:induction false} ExpansionMod(p: int, a: int, m: nat)
    requires IsPrime(p) && m < p
    ensures Expansion(p, a, m) % p == 1
  {
    hide Pow, Choose, Expansion;
    if m == 0 {
      ExpansionNext(p, a, 1);
      ModSmall(1, p);
    } else {
      ExpansionMod(p, a, m - 1);
      ExpansionNext(p, a, m);
      PrimeDividesChoose(p, m);
      AddMultiple(Expansion(p, a, m - 1), Choose(p, m), Pow(a, m), p);
    }
  }

  lemma AddMultiple(e: int, c: int, x: int, p: int)
    requires p > 0 && c % p == 0
    ensures (e + c * x) % p == e % p
  {
    var q := c / p;
    assert c == q * p;
    assert (q * p) * x == (q * x) * p;
    ModShift(e, p, q * x);
  }

  /** (1 + a)^p and 1 + a^p agree modulo a prime p. */
  lemma Freshman(p: int, a: int)
    requires IsPrime(p)
    ensures Pow(1 + a, p) % p == (1 + Pow(a, p)) % p
  {
    hide Pow, Choose, Expansion;
    BinomialTheorem(p, a);
    ExpansionMod(p, a, p - 1);
    ChooseAll(p);
    ExpansionNext(p, a, p);
    var e, x := Expansion(p, a, p - 1), Pow(a, p);
    ModAdd(e, x, p);
  }

  lemma {:induction false} FermatSelf(p: int, a: nat)
    requires IsPrime(p)
    ensures Pow(a, p) % p == a % p
  {
    hide Pow;
    if a == 0 {
      ZeroPow(p);
    } else {
      FermatSelf(p, a - 1);
      Freshman(p, a - 1);
      ModAdd(1, Pow(a - 1, p), p);
      ModAdd(1, a - 1, p);
    }
  }

  lemma ZeroPow(e: nat)
    requires e > 0
    ensures Pow(0, e) == 0
  {
  }

  /** Fermat's little theorem. */
  lemma Fermat(p: int, a: nat)
    requires IsPrime(p) && a % p != 0
    ensures Pow(a, p - 1) % p == 1
  {
    hide Pow;
    FermatSelf(p, a);
    var x := Pow(a, p - 1);
    PowNext(a, p);
    FixedPoint(p, a, x);
    Euclid(p, a, x - 1);
    var t := (x - 1) / p;
    assert x == t * p + 1;
    DivModUnique(x, p, t, 1);
  }

  lemma PowNext(a: int, e: nat)
    requires e > 0
    ensures Pow(a, e) == a * Pow(a, e - 1)
  {
  }

  lemma FixedPoint(p: int, a: int, x: int)
    requires p > 0 && (a * x) % p == a % p
    ensures (a * (x - 1)) % p == 0
  {
    var q, s := (a * x) / p, a / p;
    assert a * x == q * p + a % p && a == s * p + a % p;
    assert a * (x - 1) == a * x - a;
    assert (q - s) * p == q * p - s * p;
    ModZero(a * (x - 1), p, q - s);
  }

  /** Modulo a prime the only square roots of 1 are 1 and -1. */
  lemma SquareRootsOfOne(p: int, x: nat)
    requires IsPrime(p) && x < p && (x * x) % p == 1
    ensures x == 1 || x == p - 1
  {
    var q := (x * x) / p;
    assert x * x == q * p + 1;
    assert (x - 1) * (x + 1) == q * p;
    ModZero((x - 1) * (x + 1), p, q);
    Euclid(p, x - 1, x + 1);
    if x == 0 {
      ModSmall(0, p);
    } else if (x - 1) % p == 0 {
      ModSmall(x - 1, p);
    } else if x + 1 < p {
      ModSmall(x + 1, p);
    }
  }

  // ----- there is always a larger prime

  ghost function Factorial(n: nat): (r: nat)
    ensures r >= 1
  {
    if n == 0 then 1 else n * Factorial(n - 1)
  }

  lemma {:induction false} DividesFactorial(n: nat, d: nat)
    requires 1 <= d <= n
    ensures Factorial(n) % d == 0
  {
    if d == n {
      ModZero(Factorial(n), n, Factorial(n - 1));
    } else {
      DividesFactorial(n - 1, d);
      var q := Factorial(n - 1) / d;
      assert Factorial(n - 1) == q * d;
      assert n * (q * d) == (n * q) * d;
      ModZero(Factorial(n), d, n * q);
    }
  }

  /** The least divisor of n above 1, searched from d upwards, is prime. */
  lemma {:induction false} LeastDivisor(n: int, d: int) returns (p: int)
    requires 2 <= d <= n && forall e :: 2 <= e < d ==> n % e != 0
    ensures IsPrime(p) && n % p == 0
    decreases n - d
  {
    if n % d == 0 {
      p := d;
      forall e | 2 <= e < d
        ensures d % e != 0
      {
        if d % e == 0 {
          var q, s := n / d, d / e;
          assert n == q * d && d == s * e;
          assert n == (q * s) * e by { assert q * (s * e) == (q * s) * e; }
          ModZero(n, e, q * s);
        }
      }
    } else {
      if d == n {
        ModZero(n, n, 1);
      }
      p := LeastDivisor(n, d + 1);
    }
  }

  lemma PrimeAbove(n: nat) returns (p: int)
    ensures IsPrime(p) && p > n
  {
    var f := Factorial(n) + 1;
    p := LeastDivisor(f, 2);
    if p <= n {
      DividesFactorial(n, p);
      var q := Factorial(n) / p;
      assert f == q * p + 1;
      DivModUnique(f, p, q, 1);
    }
  }
}
