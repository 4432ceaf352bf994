/** Division, remainders and powers of integers: the facts the verifier does not find unaided. */
module Arithmetic {

  lemma MulNonNegative(a: int, b: int)
    requires a >= 0 && b >= 0
    ensures a * b >= 0
  {
  }

  lemma MulLess(b: nat, x: int, y: int)
    requires x < y && b > 0
    ensures x * b + b <= y * b
  {
    MulNonNegative(y - x - 1, b);
    assert (y - x - 1) * b == y * b - x * b - b;
  }

  lemma PartOf(x: int, part: int, whole: int)
    requires x >= 0 && 0 <= part <= whole
    ensures 0 <= x * part <= x * whole
  {
    MulNonNegative(x, part);
    MulNonNegative(x, whole - part);
    assert x * (whole - part) == x * whole - x * part;
  }

  lemma DivBound(y: int, m: int, x: int)
    requires m > 0 && 0 <= y <= x * m
    ensures 0 <= y / m <= x
  {
    var q, r := y / m, y % m;
    assert y == q * m + r && 0 <= r < m;
    if q > x {
      MulLess(m, x, q);
      assert false;
    }
    if q < 0 {
      MulLess(m, q, 0);
      assert false;
    }
  }

  lemma DivMonotone(x: int, y: int, whole: int)
    requires x <= y && whole > 0
    ensures x / whole <= y / whole
  {
    var p, q := x / whole, y / whole;
    assert x == p * whole + x % whole && y == q * whole + y % whole;
    if q < p {
      MulLess(whole, q, p);
      assert false;
    }
  }

  /** Dividing twice is dividing by the product. */
  lemma DivTwice(n: nat, a: nat, b: nat)
    requires a > 0 && b > 0
    ensures a * b > 0 && (n / a) / b == n / (a * b)
  {
    var q, r := n / a, n % a;
    var p, s := q / b, q % b;
    assert n == q * a + r && q == p * b + s;
    MulNonNegative(a - 1, b - 1);
    assert (a - 1) * (b - 1) == a * b - a - b + 1;
    assert q * a == (p * b + s) * a == p * (a * b) + s * a;
    MulLess(a, s, b);
    MulNonNegative(s, a);
    assert b * a == a * b;
    DivModUnique(n, a * b, p, s * a + r);
  }

  /** A fraction of a non-negative amount, rounded down, lies between nothing and the amount. */
  lemma Fraction(amount: int, part: int, whole: int)
    requires amount >= 0 && 0 <= part <= whole && whole > 0
    ensures 0 <= amount * part / whole <= amount
  {
    PartOf(amount, part, whole);
    DivBound(amount * part, whole, amount);
  }

  /** Quotient and remainder are determined by the division equation. */
  lemma DivModUnique(a: int, b: int, q: int, r: int)
    requires 0 <= r < b && a == q * b + r
    ensures a / b == q && a % b == r
  {
    var q', r' := a / b, a % b;
    assert a == q' * b + r';
    if q < q' {
      MulLess(b, q, q');
      assert false;
    } else if q' < q {
      MulLess(b, q', q);
      assert false;
    }
  }

  lemma ModShift(a: int, b: int, k: int)
    requires b > 0
    ensures (a + k * b) % b == a % b
  {
    assert a == (a / b) * b + a % b;
    assert a + k * b == (a / b + k) * b + a % b;
    DivModUnique(a + k * b, b, a / b + k, a % b);
  }

  lemma ModSmall(a: int, b: int)
    requires 0 <= a < b
    ensures a % b == a
  {
    DivModUnique(a, b, 0, a);
  }

  lemma ModZero(a: int, b: int, q: int)
    requires b > 0 && a == q * b
    ensures a % b == 0
  {
    DivModUnique(a, b, q, 0);
  }

  lemma ModAdd(a: int, b: int, m: int)
    requires m > 0
    ensures (a % m + b) % m == (a + b) % m && (a + b % m) % m == (a + b) % m
  {
    assert a == (a / m) * m + a % m;
    assert b == (b / m) * m + b % m;
    ModShift(a % m + b, m, a / m);
    ModShift(a + b % m, m, b / m);
  }

  lemma ModMulLeft(a: int, b: int, m: int)
    requires m > 0
    ensures ((a % m) * b) % m == (a * b) % m
  {
    var p, r := a / m, a % m;
    assert a == p * m + r;
    assert (p * m + r) * b == r * b + (p * b) * m;
    ModShift(r * b, m, p * b);
  }

  lemma ModMul(a: int, b: int, m: int)
    requires m > 0
    ensures ((a % m) * b) % m == (a * b) % m && (a * (b % m)) % m == (a * b) % m
  {
    ModMulLeft(a, b, m);
    ModMulLeft(b, a, m);
    assert b * a == a * b && (b % m) * a == a * (b % m);
  }

  lemma ModCongruent(a: int, b: int, m: int, c: int)
    requires m > 0 && a % m == b % m
    ensures (a * c) % m == (b * c) % m && (c * a) % m == (c * b) % m
    ensures (a + c) % m == (b + c) % m
  {
    ModMul(a, c, m);
    ModMul(b, c, m);
    ModAdd(a, c, m);
    ModAdd(b, c, m);
    assert c * a == a * c && c * b == b * c;
  }
}
