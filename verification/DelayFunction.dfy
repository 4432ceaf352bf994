/**
 The Wesolowski delay function used to time audits: T sequential squarings modulo N, a proof
 computed by bitwise long division of 2^T by the challenge prime, and its one-equation verifier.
 */
module DelayFunction {
  import opened Arithmetic
  import opened Bytes
  import opened NumberTheory
  import opened Primality

  /** One step of long division of a power of two. */
  lemma LongDivisionStep(i: nat, l: nat)
    requires l >= 2
    ensures var q, r := Pow(2, i) / l, Pow(2, i) % l;
            && (2 * r >= l ==> Pow(2, i + 1) / l == 2 * q + 1 && Pow(2, i + 1) % l == 2 * r - l)
            && (2 * r < l ==> Pow(2, i + 1) / l == 2 * q && Pow(2, i + 1) % l == 2 * r)
    ensures Pow(2, i) / l >= 0
  {
    hide Pow;
    PowPositive(2, i);
    PowSucc(2, i);
    DoubleDivided(Pow(2, i), l);
  }

  /** Quotient and remainder of twice a number. */
  lemma DoubleDivided(w: nat, l: nat)
    requires l >= 2
    ensures var q, r := w / l, w % l;
            && (2 * r >= l ==> (2 * w) / l == 2 * q + 1 && (2 * w) % l == 2 * r - l)
            && (2 * r < l ==> (2 * w) / l == 2 * q && (2 * w) % l == 2 * r)
    ensures w / l >= 0
  {
    var q, r := w / l, w % l;
    assert w == q * l + r;
    if q < 0 {
      MulLess(l, q, 0);
      assert false;
    }
    assert (2 * q) * l == 2 * (q * l) && (2 * q + 1) * l == 2 * (q * l) + l;
    if 2 * r >= l {
      DivModUnique(2 * w, l, 2 * q + 1, 2 * r - l);
    } else {
      DivModUnique(2 * w, l, 2 * q, 2 * r);
    }
  }

  lemma SquareOfPower(x: int, q: nat, n: nat, pi: nat)
    requires n > 0 && pi == Pow(x, q) % n
    ensures ModPow(pi, 2, n) == Pow(x, 2 * q) % n
    ensures (ModPow(pi, 2, n) * x) % n == Pow(x, 2 * q + 1) % n
  {
    hide Pow, ModPow;
    var s := Pow(x, q);
    SquareModPow(pi, n);
    ModMul(s, s, n);
    ModMul(s, pi, n);
    PowAdd(x, q, q);
    ModMul(Pow(x, 2 * q), x, n);
    PowSucc(x, 2 * q);
  }

  lemma PowSucc(x: int, e: nat)
    ensures Pow(x, e + 1) == Pow(x, e) * x && Pow(x, 0) == 1
  {
  }

  /** The long-division loop computes x^floor(2^T / l) mod N without ever forming the quotient. */
  method ComputeProof(x: int, T: nat, l: nat, N: nat) returns (pi: nat)
    requires l >= 2 && N >= 2
    ensures Pow(2, T) / l >= 0 && pi == ModPow(x, Pow(2, T) / l, N)
  {
    hide Pow, ModPow;
    pi := 1;
    var remainder := 1;
    PowSucc(2, 0);
    PowSucc(x, 0);
    ModSmall(1, N);
    DivModUnique(1, l, 0, 1);
    LongDivisionStep(0, l);
    for i := 0 to T
      invariant Pow(2, i) / l >= 0 && remainder == Pow(2, i) % l && pi == Pow(x, Pow(2, i) / l) % N
    {
      LongDivisionStep(i, l);
      LongDivisionStep(i + 1, l);
      SquareOfPower(x, Pow(2, i) / l, N, pi);
      pi := ModPow(pi, 2, N);
      var doubled := remainder * 2;
      if doubled >= l {
        pi := (pi * x) % N;
        doubled := doubled - l;
      }
      remainder := doubled;
    }
    ModPowIs(x, Pow(2, T) / l, N);
  }

  lemma SplitPower(x: int, q: nat, l: nat, r: nat, N: nat)
    requires N > 0
    ensures q * l + r >= 0 && (ModPow(ModPow(x, q, N), l, N) * ModPow(x, r, N)) % N == Pow(x, q * l + r) % N
  {
    hide Pow;
    MulNonNegative(q, l);
    PowMod(Pow(x, q), l, N);
    PowPow(x, q, l);
    PowAdd(x, q * l, r);
    ModMul(Pow(x, q * l), Pow(x, r) % N, N);
    ModMul(Pow(x, q * l), Pow(x, r), N);
  }

  /** pi^l * x^(2^T mod l) = x^(2^T), modulo any N. */
  lemma ProofEquation(x: int, T: nat, l: nat, N: nat)
    requires l >= 2 && N > 0
    ensures Pow(2, T) / l >= 0 && Pow(2, T) >= 0
    ensures (ModPow(ModPow(x, Pow(2, T) / l, N), l, N) * ModPow(x, Pow(2, T) % l, N)) % N == Pow(x, Pow(2, T)) % N
  {
    hide Pow;
    LongDivisionStep(T, l);
    PowPositive(2, T);
    var w := Pow(2, T);
    assert (w / l) * l + w % l == w;
    SplitPower(x, w / l, l, w % l, N);
  }

  method SequentialSquarings(x: nat, T: nat, N: nat) returns (y: nat)
    requires N > 0 && x < N
    ensures Pow(2, T) >= 0 && y == Pow(x, Pow(2, T)) % N
  {
    hide Pow, ModPow;
    y := x;
    PowSucc(2, 0);
    PowSucc(x, 0);
    ModSmall(x, N);
    for i := 0 to T
      invariant Pow(2, i) >= 0 && y == Pow(x, Pow(2, i)) % N
    {
      SquareOfPower(x, Pow(2, i), N, y);
      PowTwo(i + 1);
      y := ModPow(y, 2, N);
    }
  }

  // ----- challenge, evaluation, verification

  datatype Challenge = Challenge(id: Bytes, seed: Bytes, difficulty: nat)

  datatype Evaluation = Evaluation(id: Bytes, output: Bytes, proof: Bytes)

  datatype Outcome<+T> = Done(value: T) | Overflow

  /** The hash-based derivations, taken as given functions: prime candidates and Fiat-Shamir candidate. */
  datatype Derivation = Derivation(p: Bytes -> nat, q: Bytes -> nat, fiatShamir: (nat, nat, nat) -> nat)
  {
    ghost function Modulus(seed: Bytes): (n: nat)
      ensures n >= 4
    {
      ProductAtLeastFour(NextPrime(p(seed)), NextPrime(q(seed)));
      NextPrime(p(seed)) * NextPrime(q(seed))
    }

    /** The product of the primes found from the two candidates. */
    method DeriveModulus(seed: Bytes) returns (n: nat)
      ensures n == Modulus(seed) && n == NextPrime(p(seed)) * NextPrime(q(seed))
    {
      var a := NextProbablePrime(p(seed));
      var b := NextProbablePrime(q(seed));
      ProductAtLeastFour(a, b);
      n := a * b;
    }

    ghost predicate Fits(x: nat, y: nat, n: nat)
    {
      x < Pow256(256) && y < Pow256(256) && n < Pow256(256)
    }

    /** The verifier's test on a claimed output and proof. */
    ghost predicate Accepts(seed: Bytes, difficulty: nat, y: nat, pi: nat)
    {
      var n := Modulus(seed);
      var x := Base(seed, n);
      var l := NextPrime(fiatShamir(x, y, n));
      (ModPow(pi, l, n) * ModPow(x, ModPow(2, difficulty, l), n)) % n == y % n
    }

    method Evaluate(c: Challenge) returns (r: Outcome<Evaluation>)
      ensures r.Overflow? <==> Modulus(c.seed) >= Pow256(256)
      ensures r.Done? ==>
                && r.value.id == c.id
                && Pow(2, c.difficulty) >= 0
                && FromBigEndian(r.value.output)
                    == Pow(Base(c.seed, Modulus(c.seed)), Pow(2, c.difficulty)) % Modulus(c.seed)
                && Accepts(c.seed, c.difficulty, FromBigEndian(r.value.output), FromBigEndian(r.value.proof))
    {
      hide Pow, Pow256, ModPow, NextPrime;
      var n := DeriveModulus(c.seed);
      var x := Base(c.seed, n);
      var y := SequentialSquarings(x, c.difficulty, n);
      if n >= Pow256(256) { return Overflow; }
      var l := NextProbablePrime(fiatShamir(x, y, n));
      var pi := ComputeProof(x, c.difficulty, l, n);
      ProofEquation(x, c.difficulty, l, n);
      ModPowIs(2, c.difficulty, l);
      ModSmall(y, n);
      BigEndianRoundTrip(y, 256);
      BigEndianRoundTrip(pi, 256);
      r := Done(Evaluation(c.id, BigEndian(y, 256), BigEndian(pi, 256)));
    }

    /** The equation is written out: pi^l * x^(2^T mod l) against y, modulo N. */
    method Verify(c: Challenge, e: Evaluation) returns (r: Outcome<bool>)
      ensures e.id != c.id ==> r == Done(false)
      ensures e.id == c.id ==>
                var n, y, pi := Modulus(c.seed), FromBigEndian(e.output), FromBigEndian(e.proof);
                var x := Base(c.seed, n);
                if x < Pow256(256) && y < Pow256(256) && n < Pow256(256)
                then
                  && r == Done(Accepts(c.seed, c.difficulty, y, pi))
                  && var l := NextPrime(fiatShamir(x, y, n));
                     Pow(2, c.difficulty) >= 0 &&
                     r == Done((Pow(pi, l) * Pow(x, Pow(2, c.difficulty) % l) - y) % n == 0)
                else r == Overflow
    {
      hide Pow, Pow256, ModPow, NextPrime;
      if e.id != c.id { return Done(false); }
      var n := DeriveModulus(c.seed);
      var x := Base(c.seed, n);
      var y, pi := FromBigEndian(e.output), FromBigEndian(e.proof);
      if !(x < Pow256(256) && y < Pow256(256) && n < Pow256(256)) { return Overflow; }
      var l := NextProbablePrime(fiatShamir(x, y, n));
      var rem := ModPow(2, c.difficulty, l);
      var lhs := (ModPow(pi, l, n) * ModPow(x, rem, n)) % n;
      r := Done(lhs == y % n);
      PowPositive(2, c.difficulty);
      EquationOut(pi, x, Pow(2, c.difficulty), l, y, n);
      ModPowIs(2, c.difficulty, l);
    }

    /**
     With the proof of the honest prover, or any congruent to it, the verifier answers true for
     exactly one output modulo N: the T-fold square of the base.
     */
    lemma VerifierRejects(seed: Bytes, T: nat, y: nat, pi: nat)
      requires var n := Modulus(seed);
               var x := Base(seed, n);
               var l := NextPrime(fiatShamir(x, y, n));
               Pow(2, T) / l >= 0 && pi % n == Pow(x, Pow(2, T) / l) % n
      ensures var n := Modulus(seed);
              Pow(2, T) >= 0 && (Accepts(seed, T, y, pi) <==> y % n == Pow(Base(seed, n), Pow(2, T)) % n)
    {
      hide Pow, NextPrime, Base;
      var n := Modulus(seed);
      var x := Base(seed, n);
      var l := NextPrime(fiatShamir(x, y, n));
      PowPositive(2, T);
      ProofEquation(x, T, l, n);
      PowMod(pi, l, n);
      PowMod(Pow(x, Pow(2, T) / l), l, n);
      ModPowIs(2, T, l);
    }

    /** Two proofs accepted for one output agree in their l-th powers once multiplied by the common factor. */
    lemma ProofsAgree(seed: Bytes, T: nat, y: nat, pi: nat, pi': nat)
      requires Accepts(seed, T, y, pi) && Accepts(seed, T, y, pi')
      ensures var n := Modulus(seed);
              var x := Base(seed, n);
              var l := NextPrime(fiatShamir(x, y, n));
              Pow(2, T) >= 0 &&
              (Pow(pi, l) * Pow(x, Pow(2, T) % l)) % n == (Pow(pi', l) * Pow(x, Pow(2, T) % l)) % n
    {
      hide Pow, NextPrime, Base;
      var n := Modulus(seed);
      var x := Base(seed, n);
      var l := NextPrime(fiatShamir(x, y, n));
      PowPositive(2, T);
      ModPowIs(2, T, l);
      ProductMod(Pow(pi, l), Pow(x, Pow(2, T) % l), n);
      ProductMod(Pow(pi', l), Pow(x, Pow(2, T) % l), n);
    }

    /** Every honest evaluation that does not overflow is accepted. */
    method EvaluateThenVerify(c: Challenge) returns (e: Outcome<Evaluation>, ok: Outcome<bool>)
      ensures e.Overflow? <==> Modulus(c.seed) >= Pow256(256)
      ensures e.Done? ==> ok == Done(true)
    {
      hide Pow, Pow256, ModPow, NextPrime, Accepts;
      e := Evaluate(c);
      ok := Overflow;
      if e.Done? {
        ok := Verify(c, e.value);
      }
    }
  }

  lemma ProductMod(a: int, b: int, n: nat)
    requires n > 0
    ensures ((a % n) * (b % n)) % n == (a * b) % n
  {
    ModMul(a, b % n, n);
    ModMul(a, b, n);
  }

  /** The verifier's comparison of residues, as a congruence. */
  lemma EquationOut(pi: nat, x: nat, w: nat, l: nat, y: nat, n: nat)
    requires n > 0 && l > 0
    ensures (ModPow(pi, l, n) * ModPow(x, w % l, n)) % n == y % n <==> (Pow(pi, l) * Pow(x, w % l) - y) % n == 0
  {
    hide Pow;
    ProductMod(Pow(pi, l), Pow(x, w % l), n);
    SameResidue(Pow(pi, l) * Pow(x, w % l), y, n);
  }

  lemma SameResidue(a: int, b: int, n: nat)
    requires n > 0
    ensures a % n == b % n <==> (a - b) % n == 0
  {
    var p, q := a / n, b / n;
    assert a == p * n + a % n && b == q * n + b % n;
    assert (p - q) * n == p * n - q * n;
    if a % n == b % n {
      ModZero(a - b, n, p - q);
    } else if (a - b) % n == 0 {
      var t := (a - b) / n;
      assert a - b == t * n;
      assert (t + q) * n == t * n + q * n;
      DivModUnique(a, n, t + q, b % n);
    }
  }

  /** The seed's residue, with 0 and 1 replaced. */
  function Base(seed: Bytes, n: nat): (x: nat)
    requires n >= 4
    ensures 2 <= x < n
    ensures (FromBigEndian(seed) - x) % n == 0 || (x == 2 && FromBigEndian(seed) % n in {0, 1})
  {
    SameResidue(FromBigEndian(seed), FromBigEndian(seed) % n, n);
    ModSmall(FromBigEndian(seed) % n, n);

    var x := FromBigEndian(seed) % n;
    if x < 2 then 2 else x
  }

  lemma ProductAtLeastFour(a: int, b: int)
    requires a >= 2 && b >= 2
    ensures a * b >= 4
  {
    assert (a - 2) * b >= 0;
  }
}
