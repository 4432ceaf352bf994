/**
 The Miller-Rabin test and the search for the next probable prime.  The test is compared with a
 reference definition (strong pseudoprimality to each witness) that every prime satisfies, which
 in turn is what makes the open-ended search terminate.
 */
module Primality {
  import opened Arithmetic
  import opened NumberTheory

  const WITNESSES: seq<nat> := [2, 3, 5, 7, 11, 13, 17, 19, 23, 29]

  /** How often 2 divides m. */
  ghost function Twos(m: nat): nat
    requires m > 0
  {
    if m % 2 == 0 then 1 + Twos(m / 2) else 0
  }

  ghost function OddPart(m: nat): nat
    requires m > 0
  {
    if m % 2 == 0 then OddPart(m / 2) else m
  }

  lemma {:induction false} TwosOddPart(m: nat)
    requires m > 0
    ensures OddPart(m) % 2 == 1 && m == Pow(2, Twos(m)) * OddPart(m)
  {
    hide Pow;
    if m % 2 == 0 {
      TwosOddPart(m / 2);
      PowTwo(Twos(m));
      DoubleProduct(Pow(2, Twos(m / 2)), OddPart(m / 2));
    } else {
      PowOne();
    }
  }

  lemma DoubleProduct(w: int, d: int)
    ensures (2 * w) * d == 2 * (w * d)
  {
  }

  /** a^(d * 2^j) mod n, by repeated squaring. */
  ghost function Squared(a: nat, d: nat, n: nat, j: nat): nat
    requires n > 0
  {
    if j == 0 then ModPow(a, d, n) else ModPow(Squared(a, d, n, j - 1), 2, n)
  }

  /** n looks prime to witness a: a^d is 1, or some a^(d * 2^j) with j < r is -1, where n - 1 = 2^r * d. */
  ghost predicate StrongProbablePrime(n: nat, a: nat)
    requires n > 1
  {
    var r, d := Twos(n - 1), OddPart(n - 1);
    Squared(a, d, n, 0) == 1 || exists j :: 0 <= j < r && Squared(a, d, n, j) == n - 1
  }

  ghost predicate ProbablePrime(n: int, rounds: nat)
  {
    && n >= 2
    && (n >= 4 ==>
          && n % 2 == 1
          && forall i :: 0 <= i < |WITNESSES| && i < rounds && WITNESSES[i] < n ==>
              StrongProbablePrime(n, WITNESSES[i]))
  }

  // ----- every prime passes

  lemma SquareModPow(x: nat, n: nat)
    requires n > 0
    ensures ModPow(x, 2, n) == (x * x) % n
  {
    assert Pow(x, 2) == x * Pow(x, 1) == x * x;
  }

  lemma {:induction false} SquaredIsPower(a: nat, d: nat, n: nat, j: nat)
    requires n > 0
    ensures Pow(2, j) * d >= 0 && Squared(a, d, n, j) == Pow(a, Pow(2, j) * d) % n
  {
    hide Pow, ModPow;
    PowOne();
    if j == 0 {
      ModPowIs(a, d, n);
    } else {
      SquaredIsPower(a, d, n, j - 1);
      var e := Pow(2, j - 1) * d;
      var s := Squared(a, d, n, j - 1);
      SquareModPow(s, n);
      ModMul(Pow(a, e), Pow(a, e), n);
      ModMul(Pow(a, e), s, n);
      PowAdd(a, e, e);
      PowTwo(j);
      assert Pow(2, j) * d == e + e by {
        assert 2 * Pow(2, j - 1) * d == 2 * (Pow(2, j - 1) * d);
      }
    }
  }

  lemma PowOne()
    ensures Pow(2, 0) == 1
  {
  }

  lemma PowTwo(j: nat)
    requires j > 0
    ensures Pow(2, j) == 2 * Pow(2, j - 1)
  {
  }

  lemma ModPowIs(b: int, e: nat, m: nat)
    requires m > 0
    ensures ModPow(b, e, m) == Pow(b, e) % m
  {
  }

  /** Walking back from a^(n-1) = 1: either every square was 1, or the last one that was not is -1. */
  lemma {:induction false} LastNonOne(a: nat, d: nat, p: nat, j: nat)
    requires IsPrime(p) && Squared(a, d, p, j) == 1
    ensures Squared(a, d, p, 0) == 1 || exists i :: 0 <= i < j && Squared(a, d, p, i) == p - 1
  {
    hide ModPow, Pow;
    if j != 0 {
      var s := Squared(a, d, p, j - 1);
      SquareModPow(s, p);
      SquaredBelow(a, d, p, j - 1);
      SquareRootsOfOne(p, s);
      if s == 1 {
        LastNonOne(a, d, p, j - 1);
      }
    }
  }

  lemma SquaredBelow(a: nat, d: nat, n: nat, j: nat)
    requires n > 0
    ensures Squared(a, d, n, j) < n
  {
  }

  lemma PrimePassesWitness(p: nat, a: nat)
    requires IsPrime(p) && 0 < a < p
    ensures StrongProbablePrime(p, a)
  {
    hide Squared, Pow;
    var r, d := Twos(p - 1), OddPart(p - 1);
    TwosOddPart(p - 1);
    ModSmall(a, p);
    Fermat(p, a);
    SquaredIsPower(a, d, p, r);
    LastNonOne(a, d, p, r);
  }

  /** The test never rejects a prime. */
  lemma PrimePasses(p: int, rounds: nat)
    requires IsPrime(p)
    ensures ProbablePrime(p, rounds)
  {
    if p >= 4 {
      assert p % 2 != 0;
      forall i | 0 <= i < |WITNESSES| && i < rounds && WITNESSES[i] < p
        ensures StrongProbablePrime(p, WITNESSES[i])
      {
        PrimePassesWitness(p, WITNESSES[i]);
      }
    }
  }

  // ----- what acceptance means

  /** A power of a divisor of n stays divisible by it modulo n. */
  lemma DivisorStays(n: nat, a: nat, x: nat)
    requires n > 0 && a > 0 && n % a == 0 && x % a == 0
    ensures (x % n) % a == 0
  {
    var q, t, u := x / n, n / a, x / a;
    assert x == q * n + x % n && n == t * a && x == u * a;
    assert q * (t * a) == (q * t) * a;
    assert x % n == (u - q * t) * a by {
      assert (u - q * t) * a == u * a - (q * t) * a;
    }
    ModZero(x % n, a, u - q * t);
  }

  lemma MultipleOf(a: nat, x: nat)
    requires a > 0
    ensures (a * x) % a == 0
  {
    ModZero(a * x, a, x);
  }

  lemma SquareDivisible(a: nat, s: nat)
    requires a > 0 && s % a == 0
    ensures s * s >= 0 && (s * s) % a == 0
  {
    var t := s / a;
    assert s == t * a;
    assert s * (t * a) == (s * t) * a;
    ModZero(s * s, a, s * t);
  }

  lemma {:induction false} SquaredDivisible(a: nat, d: nat, n: nat, j: nat)
    requires n > 0 && a > 0 && d > 0 && n % a == 0
    ensures Squared(a, d, n, j) % a == 0
  {
    hide Pow, ModPow;
    if j == 0 {
      PowerDivisible(a, d);
      ModPowIs(a, d, n);
      DivisorStays(n, a, Pow(a, d));
    } else {
      var s := Squared(a, d, n, j - 1);
      SquaredDivisible(a, d, n, j - 1);
      SquareModPow(s, n);
      SquareDivisible(a, s);
      DivisorStays(n, a, s * s);
    }
  }

  lemma PowerDivisible(a: nat, d: nat)
    requires a > 0 && d > 0
    ensures Pow(a, d) >= 0 && Pow(a, d) % a == 0
  {
    hide Pow;
    PowNext(a, d);
    PowNonNegative(a, d - 1);
    MulNonNegative(a, Pow(a, d - 1));
    MultipleOf(a, Pow(a, d - 1));
  }

  lemma PowNonNegative(a: nat, e: nat)
    ensures Pow(a, e) >= 0
  {
    if e > 0 {
      PowNonNegative(a, e - 1);
    }
  }

  /** A witness that divides n exposes it. */
  lemma DivisorExposes(n: nat, a: nat)
    requires n > 2 && 2 <= a < n && n % a == 0
    ensures !StrongProbablePrime(n, a)
  {
    hide Squared;
    var r, d := Twos(n - 1), OddPart(n - 1);
    TwosOddPart(n - 1);
    forall j: nat ensures Squared(a, d, n, j) != 1 && Squared(a, d, n, j) != n - 1
    {
      SquaredDivisible(a, d, n, j);
      ModSmall(1, a);
      BeforeMultiple(n, a);
    }
  }

  lemma BeforeMultiple(n: nat, a: nat)
    requires n > 0 && a >= 2 && n % a == 0
    ensures (n - 1) % a == a - 1
  {
    var t := n / a;
    assert n == t * a;
    assert (t - 1) * a == t * a - a;
    DivModUnique(n - 1, a, t - 1, a - 1);
  }

  /** A number accepted in ten rounds or more has no divisor among 2, 3, 5, 7, 11, 13, 17, 19, 23, 29 but itself. */
  lemma NoSmallDivisor(n: int, rounds: nat, a: nat)
    requires ProbablePrime(n, rounds) && rounds >= 10 && a < n
    requires a in {2, 3, 5, 7, 11, 13, 17, 19, 23, 29}
    ensures n % a != 0
  {
    hide StrongProbablePrime;
    if n < 4 {
      assert n == 3 && a == 2;
    } else if n % a == 0 {
      DivisorExposes(n, a);
      Listed(a);
      assert false;
    }
  }

  lemma Listed(a: nat)
    requires a in {2, 3, 5, 7, 11, 13, 17, 19, 23, 29}
    ensures exists i :: 0 <= i < |WITNESSES| && i < 10 && WITNESSES[i] == a
  {
    assert WITNESSES[0] == 2 && WITNESSES[1] == 3 && WITNESSES[2] == 5 && WITNESSES[3] == 7 && WITNESSES[4] == 11;
    assert WITNESSES[5] == 13 && WITNESSES[6] == 17 && WITNESSES[7] == 19 && WITNESSES[8] == 23 && WITNESSES[9] == 29;
  }

  /** A prime below 31 is one of the ten. */
  lemma SmallPrimes(p: int)
    requires IsPrime(p) && p < 31
    ensures p in {2, 3, 5, 7, 11, 13, 17, 19, 23, 29}
  {
    assert p > 2 ==> p % 2 != 0;
    assert p > 3 ==> p % 3 != 0;
    assert p > 5 ==> p % 5 != 0;
  }

  /** A composite number has a prime divisor whose square does not exceed it. */
  lemma {:induction false} SmallestFactor(n: int) returns (p: int)
    requires n >= 2 && !IsPrime(n)
    ensures IsPrime(p) && n % p == 0 && p < n && p * p <= n
  {
    var e := CompositeDivisor(n);
    hide IsPrime;
    p := FirstDivisor(n, 2, e);
    Cofactor(n, p);
    FirstSquare(n, n / p, p);
    FirstIsPrime(n, p);
  }

  lemma CompositeDivisor(n: int) returns (e: int)
    requires n >= 2 && !IsPrime(n)
    ensures 2 <= e < n && n % e == 0
  {
    e :| 2 <= e < n && n % e == 0;
  }

  lemma Cofactor(n: int, d: int)
    requires d > 0 && n % d == 0
    ensures n == (n / d) * d
  {
  }

  lemma FirstSquare(n: int, q: int, d: int)
    requires 2 <= d < n && n == q * d && forall i :: 2 <= i < d ==> n % i != 0
    ensures d * d <= n
  {
    CofactorBig(n, q, d);
    CofactorDivides(n, q, d);
    assert q >= d;
    MulMonotone(d, q, d);
  }

  lemma CofactorDivides(n: int, q: int, d: int)
    requires n == q * d && q > 0
    ensures n % q == 0
  {
    ModZero(n, q, d);
  }

  lemma CofactorBig(n: int, q: int, d: int)
    requires n == q * d && 2 <= d < n
    ensures q >= 2
  {
    MulMonotone(q, if q <= 1 then 1 else q, d);
  }

  lemma MulMonotone(x: int, y: int, z: nat)
    requires x <= y
    ensures x * z <= y * z
  {
    MulNonNegative(y - x, z);
    assert (y - x) * z == y * z - x * z;
  }

  lemma {:induction false} FirstDivisor(n: int, from: int, e: int) returns (d: int)
    requires 2 <= from <= e < n && n % e == 0 && forall i :: 2 <= i < from ==> n % i != 0
    ensures 2 <= d <= e && n % d == 0 && forall i :: 2 <= i < d ==> n % i != 0
    decreases e - from
  {
    if n % from == 0 {
      d := from;
    } else {
      d := FirstDivisor(n, from + 1, e);
    }
  }

  lemma FirstIsPrime(n: int, d: int)
    requires 2 <= d < n && n % d == 0 && forall i :: 2 <= i < d ==> n % i != 0
    ensures IsPrime(d)
  {
    forall e | 2 <= e < d
      ensures d % e != 0
    {
      if d % e == 0 {
        DividesThrough(n, d, e);
        assert false;
      }
    }
  }

  lemma DividesThrough(n: int, d: int, e: int)
    requires d > 0 && e > 0 && n % d == 0 && d % e == 0
    ensures n % e == 0
  {
    var t, u := d / e, n / d;
    assert n == u * d && d == t * e;
    assert u * (t * e) == (u * t) * e;
    ModZero(n, e, u * t);
  }

  /** Below 961, the square of 31, acceptance in ten rounds or more is primality. */
  lemma AcceptedIsPrime(n: int, rounds: nat)
    requires rounds >= 10 && n < 961
    ensures ProbablePrime(n, rounds) <==> IsPrime(n)
  {
    hide ProbablePrime;
    if IsPrime(n) {
      PrimePasses(n, rounds);
    } else if n >= 2 && ProbablePrime(n, rounds) {
      var p := SmallestFactor(n);
      if p >= 31 {
        MulMonotone(31, p, 31);
        MulMonotone(31, p, p);
        assert false;
      }
      SmallPrimes(p);
      NoSmallDivisor(n, rounds, p);
      assert false;
    }
    TooSmall(n, rounds);
  }

  lemma TooSmall(n: int, rounds: nat)
    ensures n < 2 ==> !ProbablePrime(n, rounds) && !IsPrime(n)
  {
  }

  /** Whatever its size, an accepted number meets Fermat's condition for every witness tried. */
  lemma AcceptedMeetsFermat(n: int, rounds: nat, i: nat)
    requires ProbablePrime(n, rounds) && n >= 4 && i < |WITNESSES| && i < rounds && WITNESSES[i] < n
    ensures Pow(WITNESSES[i], n - 1) % n == 1
  {
    hide Squared, Pow, Twos, OddPart;
    var a, r, d := WITNESSES[i], Twos(n - 1), OddPart(n - 1);
    TwosOddPart(n - 1);
    if Squared(a, d, n, 0) == 1 {
      StaysOne(a, d, n, 0, r);
    } else {
      var j :| 0 <= j < r && Squared(a, d, n, j) == n - 1;
      SquareOfMinusOne(a, d, n, j);
      StaysOne(a, d, n, j + 1, r);
    }
    SquaredIsPower(a, d, n, r);
  }

  lemma SquareOfMinusOne(a: nat, d: nat, n: nat, j: nat)
    requires n >= 2 && Squared(a, d, n, j) == n - 1
    ensures Squared(a, d, n, j + 1) == 1
  {
    hide ModPow;
    SquareModPow(n - 1, n);
    assert (n - 1) * (n - 1) == (n - 2) * n + 1;
    DivModUnique((n - 1) * (n - 1), n, n - 2, 1);
  }

  lemma {:induction false} StaysOne(a: nat, d: nat, n: nat, j: nat, r: nat)
    requires n >= 2 && j <= r && Squared(a, d, n, j) == 1
    ensures Squared(a, d, n, r) == 1
    decreases r - j
  {
    hide ModPow;
    if j < r {
      StaysOne(a, d, n, j, r - 1);
      SquareModPow(1, n);
      ModSmall(1, n);
    }
  }

  // ----- the loops

  method SplitEven(m: nat) returns (r: nat, d: nat)
    requires m > 0
    ensures r == Twos(m) && d == OddPart(m)
  {
    r, d := 0, m;
    while d % 2 == 0
      invariant d > 0 && Twos(m) == r + Twos(d) && OddPart(m) == OddPart(d)
      decreases d
    {
      r := r + 1;
      d := d / 2;
    }
  }

  method WitnessAccepts(n: nat, a: nat, r: nat, d: nat) returns (ok: bool)
    requires n >= 4 && r == Twos(n - 1) && d == OddPart(n - 1) && r > 0
    ensures ok <==> StrongProbablePrime(n, a)
  {
    hide ModPow, Twos, OddPart;
    var x := ModPow(a, d, n);
    if x == 1 || x == n - 1 {
      assert x == Squared(a, d, n, 0);
      return true;
    }
    for j := 1 to r
      invariant x == Squared(a, d, n, j - 1)
      invariant forall i :: 0 <= i < j ==> Squared(a, d, n, i) != n - 1
    {
      x := ModPow(x, 2, n);
      if x == n - 1 {
        assert x == Squared(a, d, n, j);
        return true;
      }
    }
    return false;
  }

  method IsProbablePrime(n: int, rounds: nat) returns (ok: bool)
    ensures ok <==> ProbablePrime(n, rounds)
    ensures IsPrime(n) ==> ok
    ensures ok && rounds >= 10 && n < 961 ==> IsPrime(n)
  {
    hide StrongProbablePrime, IsPrime;
    if IsPrime(n) {
      PrimePasses(n, rounds);
    }
    if rounds >= 10 && n < 961 {
      AcceptedIsPrime(n, rounds);
    }
    if n < 2 { return false; }
    if n < 4 { return true; }
    if n % 2 == 0 { return false; }
    var r, d := SplitEven(n - 1);
    for i := 0 to if rounds < |WITNESSES| then rounds else |WITNESSES|
      invariant forall j :: 0 <= j < i && WITNESSES[j] < n ==> StrongProbablePrime(n, WITNESSES[j])
    {
      var a := WITNESSES[i];
      if a < n {
        var accepted := WitnessAccepts(n, a, r, d);
        if !accepted { return false; }
      }
    }
    return true;
  }

  /** The first number tried by a search from n. */
  function FirstTried(n: int): int
  {
    if n % 2 == 0 then n + 1 else n
  }

  /** q is where a search from n stops: the first odd number tried that passes. */
  ghost predicate IsNext(n: int, q: int)
  {
    if n < 2 then q == 2
    else
      && q >= FirstTried(n) && q % 2 == 1 && ProbablePrime(q, 40)
      && forall m :: FirstTried(n) <= m < q && m % 2 == 1 ==> !ProbablePrime(m, 40)
  }

  lemma {:induction false} SearchEnds(n: int, q: int, stop: int)
    requires n >= 2 && FirstTried(n) <= q <= stop && q % 2 == 1 && IsPrime(stop)
    requires forall m :: FirstTried(n) <= m < q && m % 2 == 1 ==> !ProbablePrime(m, 40)
    ensures exists r :: IsNext(n, r)
    decreases stop - q
  {
    hide ProbablePrime, IsPrime;
    PrimeFacts();
    if ProbablePrime(q, 40) {
      assert IsNext(n, q);
    } else {
      PrimePasses(stop, 40);
      SearchEnds(n, q + 2, stop);
    }
  }

  /** Every search stops somewhere, and at one place only. */
  ghost function NextPrime(n: int): (q: int)
    ensures IsNext(n, q) && q >= 2
  {
    NextExists(n);
    NextAtLeastTwo(n);
    var q :| IsNext(n, q);
    q
  }

  lemma NextExists(n: int)
    ensures exists q :: IsNext(n, q)
  {
    if n < 2 {
      assert IsNext(n, 2);
    } else {
      var stop := PrimeAbove(FirstTried(n));
      SearchEnds(n, FirstTried(n), stop);
    }
  }

  lemma NextAtLeastTwo(n: int)
    ensures forall q :: IsNext(n, q) ==> q >= 2
  {
  }

  lemma NextUnique(n: int, q: int, r: int)
    requires IsNext(n, q) && IsNext(n, r)
    ensures q == r
  {
    hide ProbablePrime;
  }

  /** The only prime a search can step over is 2 itself. */
  lemma SkipsOnlyComposites(n: int, m: int)
    requires n <= m < NextPrime(n)
    ensures IsPrime(m) <==> n == 2 == m
  {
    hide ProbablePrime;
    PrimeFacts();
    assert IsNext(n, NextPrime(n));
    if IsPrime(m) {
      PrimePasses(m, 40);
    }
  }

  /** A search that ends below 961 ends at a prime, the first at or above its start apart from 2. */
  lemma NextIsPrime(n: int)
    requires NextPrime(n) < 961
    ensures IsPrime(NextPrime(n)) && forall m :: n <= m < NextPrime(n) && m != 2 ==> !IsPrime(m)
  {
    hide ProbablePrime, IsPrime;
    var q := NextPrime(n);
    assert ProbablePrime(q, 40) by { PrimeFacts(); }
    AcceptedIsPrime(q, 40);
    forall m | n <= m < q && m != 2 ensures !IsPrime(m)
    {
      SkipsOnlyComposites(n, m);
    }
  }

  method NextProbablePrime(n: int) returns (q: int)
    ensures q == NextPrime(n)
    ensures q < 961 ==> IsPrime(q)
  {
    hide IsPrime, ProbablePrime;
    if NextPrime(n) < 961 {
      NextIsPrime(n);
    }
    if n < 2 { return 2; }
    q := n;
    if q % 2 == 0 { q := q + 1; }
    ghost var stop := PrimeAbove(q);
    PrimeFacts();
    var accepted := IsProbablePrime(q, 40);
    while !accepted
      invariant FirstTried(n) <= q <= stop && q % 2 == 1
      invariant accepted <==> ProbablePrime(q, 40)
      invariant IsPrime(q) ==> accepted
      invariant forall m :: FirstTried(n) <= m < q && m % 2 == 1 ==> !ProbablePrime(m, 40)
      decreases stop - q
    {
      assert q != stop && stop % 2 == 1;
      q := q + 2;
      accepted := IsProbablePrime(q, 40);
    }
    NextUnique(n, q, NextPrime(n));
  }

  lemma PrimeFacts()
    ensures forall p :: IsPrime(p) ==> p >= 2 && (p > 2 ==> p % 2 == 1)
    ensures ProbablePrime(2, 40)
  {
  }
}
