/**
 The element 2 generates the multiplicative group of GF(256): its powers run through all 255
 non-zero bytes before they repeat.  This is what makes logarithm tables possible.
 */
module Generator {
  import opened Arithmetic
  import opened Bytes
  import opened Galois

  /** The i-th power of 2: the value the table-filling loop holds at step i. */
  function Gen(i: nat): Byte
  {
    if i == 0 then 1 else Double(Gen(i - 1))
  }

  lemma {:induction false} GenAdd(i: nat, j: nat)
    ensures Mul(Gen(i), Gen(j)) == Gen(i + j)
  {
    if j == 0 {
      MulOne(Gen(i));
    } else {
      GenAdd(i, j - 1);
      MulDoubleRight(Gen(i), Gen(j - 1));
    }
  }

  // ----- closed terms are evaluated on bit vectors

  function Bit(b: bool): nat
  {
    if b then 1 else 0
  }

  /** The byte with the given bits, lowest first. */
  function FromBits(b0: bool, b1: bool, b2: bool, b3: bool, b4: bool, b5: bool, b6: bool, b7: bool): Byte
  {
    Bit(b0) + 2 * (Bit(b1) + 2 * (Bit(b2) + 2 * (Bit(b3)
      + 2 * (Bit(b4) + 2 * (Bit(b5) + 2 * (Bit(b6) + 2 * Bit(b7)))))))
  }

  lemma XorBit(b: bool, h: nat, c: bool, k: nat, r: nat)
    requires Xor(h, k) == r
    ensures Xor(Bit(b) + 2 * h, Bit(c) + 2 * k) == Bit(b != c) + 2 * r
  {
    HalveShifted(Bit(b), h);
    HalveShifted(Bit(c), k);
    XorStep(Bit(b) + 2 * h, Bit(c) + 2 * k);
  }

  lemma XorZero(h: nat)
    ensures Xor(h, 0) == h
  {
  }

  /** Adding 0x1D flips bits 0, 2, 3 and 4. */
  lemma {:induction false} XorReduction(b1: bool, b2: bool, b3: bool, b4: bool, h5: nat)
    ensures Xor(2 * (Bit(b1) + 2 * (Bit(b2) + 2 * (Bit(b3) + 2 * (Bit(b4) + 2 * h5)))), 0x1D)
         == 1 + 2 * (Bit(b1) + 2 * (Bit(!b2) + 2 * (Bit(!b3) + 2 * (Bit(!b4) + 2 * h5))))
  {
    hide Xor;
    XorZero(h5);
    var h4 := Bit(b4) + 2 * h5;
    var h3 := Bit(b3) + 2 * h4;
    var h2 := Bit(b2) + 2 * h3;
    var h1 := Bit(b1) + 2 * h2;
    var r4 := Bit(!b4) + 2 * h5;
    var r3 := Bit(!b3) + 2 * r4;
    var r2 := Bit(!b2) + 2 * r3;
    XorBit(b4, h5, true, 0, h5);
    XorBit(b3, h4, true, 1, r4);
    XorBit(b2, h3, true, 3, r3);
    XorBit(b1, h2, false, 7, r2);
    XorBit(false, h1, true, 14, Bit(b1) + 2 * r2);
  }

  lemma {:induction false} DoubleOnBits(b0: bool, b1: bool, b2: bool, b3: bool, b4: bool, b5: bool, b6: bool, b7: bool)
    ensures Double(FromBits(b0, b1, b2, b3, b4, b5, b6, b7))
         == FromBits(b7, b0, b1 != b7, b2 != b7, b3 != b7, b4, b5, b6)
  {
    hide Xor;
    var h5 := Bit(b4) + 2 * (Bit(b5) + 2 * Bit(b6));
    if b7 {
      XorReduction(b0, b1, b2, b3, h5);
      XorByte(FromBits(false, b0, b1, b2, b3, b4, b5, b6), MODULUS - 256);
    }
  }

  function DoubleBits(v: bv8): bv8
  {
    (v << 1) ^ (if v < 128 then 0 else 0x1D)
  }

  function At(v: bv8, mask: bv8): bool
  {
    v & mask != 0
  }

  lemma BitsSum(v: bv8)
    ensures v as int == (if At(v, 1) then 1 else 0) + (if At(v, 2) then 2 else 0) + (if At(v, 4) then 4 else 0)
                      + (if At(v, 8) then 8 else 0) + (if At(v, 16) then 16 else 0) + (if At(v, 32) then 32 else 0)
                      + (if At(v, 64) then 64 else 0) + (if At(v, 128) then 128 else 0)
  {
  }

  lemma BitsValue(v: bv8)
    ensures v as int == FromBits(At(v, 1), At(v, 2), At(v, 4), At(v, 8),
                                 At(v, 16), At(v, 32), At(v, 64), At(v, 128))
  {
    BitsSum(v);
    hide At;
  }

  lemma DoubleBitsShift(v: bv8)
    ensures var w := DoubleBits(v);
            && At(w, 1) == At(v, 128) && At(w, 2) == At(v, 1)
            && At(w, 4) == (At(v, 2) != At(v, 128)) && At(w, 8) == (At(v, 4) != At(v, 128))
            && At(w, 16) == (At(v, 8) != At(v, 128)) && At(w, 32) == At(v, 16)
            && At(w, 64) == At(v, 32) && At(w, 128) == At(v, 64)
  {
  }

  lemma {:induction false} DoubleIsBits(v: bv8)
    ensures Double(v as int) == DoubleBits(v) as int
  {
    hide Xor, Double, FromBits, At, DoubleBits;
    BitsValue(v);
    BitsValue(DoubleBits(v));
    DoubleBitsShift(v);
    DoubleOnBits(At(v, 1), At(v, 2), At(v, 4), At(v, 8), At(v, 16), At(v, 32), At(v, 64), At(v, 128));
  }

  function Stride5(v: bv8): bv8
  {
    DoubleBits(DoubleBits(DoubleBits(DoubleBits(DoubleBits(v)))))
  }

  function Stride15(v: bv8): bv8
  {
    Stride5(Stride5(Stride5(v)))
  }

  lemma {:induction false} GenDouble(i: nat, v: bv8)
    requires Gen(i) == v as int
    ensures Gen(i + 1) == DoubleBits(v) as int
  {
    hide Double, DoubleBits;
    DoubleIsBits(v);
  }

  lemma {:induction false} GenStride5(i: nat, v: bv8)
    requires Gen(i) == v as int
    ensures Gen(i + 5) == Stride5(v) as int
  {
    hide Gen, DoubleBits;
    var v1 := DoubleBits(v);
    var v2 := DoubleBits(v1);
    var v3 := DoubleBits(v2);
    GenDouble(i, v);
    GenDouble(i + 1, v1);
    GenDouble(i + 2, v2);
    GenDouble(i + 3, v3);
    GenDouble(i + 4, DoubleBits(v3));
  }

  lemma {:induction false} GenStride15(i: nat, v: bv8)
    requires Gen(i) == v as int
    ensures Gen(i + 15) == Stride15(v) as int
  {
    hide Gen, Stride5;
    GenStride5(i, v);
    GenStride5(i + 5, Stride5(v));
    GenStride5(i + 10, Stride5(Stride5(v)));
  }

  lemma StrideValues()
    ensures Stride15(1) == 38 && Stride15(38) == 96 && Stride15(96) == 193 && Stride15(193) == 185
    ensures Stride15(185) == 15 && Stride15(15) == 223 && Stride15(223) == 26 && Stride15(26) == 59
    ensures Stride15(59) == 169 && Stride15(169) == 85 && Stride15(85) == 145 && Stride15(145) == 150
    ensures Stride15(150) == 100 && Stride15(100) == 89 && Stride15(89) == 36 && Stride15(36) == 44
    ensures Stride15(44) == 1
  {
  }

  /** Where the walk around the cycle stands after 15, 90, 105 and 255 steps. */
  lemma {:induction false} GenLandmarks(i: nat)
    requires Gen(i) == 1
    ensures Gen(i + 15) == 38 && Gen(i + 90) == 223 && Gen(i + 105) == 26 && Gen(i + 255) == 1
  {
    hide Gen, Stride15;
    StrideValues();
    GenStride15(i, 1);
    GenStride15(i + 15, 38);
    GenStride15(i + 30, 96);
    GenStride15(i + 45, 193);
    GenStride15(i + 60, 185);
    GenStride15(i + 75, 15);
    GenStride15(i + 90, 223);
    GenStride15(i + 105, 26);
    GenStride15(i + 120, 59);
    GenStride15(i + 135, 169);
    GenStride15(i + 150, 85);
    GenStride15(i + 165, 145);
    GenStride15(i + 180, 150);
    GenStride15(i + 195, 100);
    GenStride15(i + 210, 89);
    GenStride15(i + 225, 36);
    GenStride15(i + 240, 44);
  }

  // ----- the order of 2 is exactly 255

  lemma {:induction false} GenNonZero(i: nat)
    ensures Gen(i) != 0
  {
    hide Xor;
    if i != 0 {
      GenNonZero(i - 1);
      var a: int := Gen(i - 1);
      if 2 * a >= 256 {
        XorByte(2 * a - 256, MODULUS - 256);
        if Double(a) == 0 {
          XorByte(2 * a - 256, 29);
          AddCancel(2 * a - 256, 29);
        }
      }
    }
  }

  lemma {:induction false} GenPeriod(i: nat, n: nat)
    requires Gen(n) == 1
    ensures Gen(i + n) == Gen(i)
  {
    GenAdd(i, n);
    MulOne(Gen(i));
  }

  /** If 2^b is 1 then so is 2^(a mod b) whenever 2^a is. */
  lemma {:induction false} GenRemainder(a: nat, b: nat)
    requires b > 0 && Gen(a) == 1 && Gen(b) == 1
    ensures Gen(a % b) == 1
  {
    hide Gen;
    if a >= b {
      GenPeriod(a - b, b);
      GenRemainder(a - b, b);
      ModShift(a - b, b, 1);
    } else {
      ModSmall(a, b);
    }
  }

  lemma {:induction false} GenMultiple(m: nat, q: nat)
    requires Gen(m) == 1
    ensures Gen(m * q) == 1
  {
    hide Gen;
    if q == 0 {
      GenZero();
    } else {
      GenMultiple(m, q - 1);
      assert m * q == m * (q - 1) + m;
      GenPeriod(m * (q - 1), m);
    }
  }

  lemma GenZero()
    ensures Gen(0) == 1 && Gen(3) == 8 && Gen(5) == 32
  {
  }

  lemma DivisorsOf255(m: nat, q: nat)
    requires m * q == 255
    ensures m in {1, 3, 5, 15, 17, 51, 85, 255}
  {
    if m >= 16 && q >= 16 {
      MulLess(q, 15, m);
      assert false;
    }
    if m < 16 {
      assert m in {0, 1, 2, 3, 4, 5, 6, 7, 8, 9, 10, 11, 12, 13, 14, 15};
    } else {
      assert q in {0, 1, 2, 3, 4, 5, 6, 7, 8, 9, 10, 11, 12, 13, 14, 15};
    }
  }

  lemma {:induction false} NoShortPeriod(m: nat)
    requires 0 < m < 255
    ensures Gen(m) != 1
    decreases m
  {
    hide Gen;
    if Gen(m) == 1 {
      GenZero();
      GenLandmarks(0);
      GenRemainder(255, m);
      var q, r := 255 / m, 255 % m;
      if r > 0 {
        NoShortPeriod(r);
      } else {
        DivisorsOf255(m, q);
        if m == 85 {
          GenPeriod(5, 85);
        } else if m == 17 || m == 51 {
          GenMultiple(m, 51 / m);
          GenPeriod(3, 51);
          GenPeriod(54, 51);
        } else {
          GenMultiple(m, 15 / m);
        }
      }
    }
  }

  lemma {:induction false} GenInjective(i: nat, j: nat)
    requires i < j < 255
    ensures Gen(i) != Gen(j)
  {
    hide Gen;
    if Gen(i) == Gen(j) {
      GenZero();
      GenLandmarks(0);
      GenAdd(i, 255 - i);
      GenAdd(j, 255 - i);
      GenPeriod(j - i, 255);
      NoShortPeriod(j - i);
    }
  }

  // ----- every non-zero byte is a power of 2

  /** The integers 1..n. */
  ghost function UpTo(n: nat): set<int>
  {
    if n == 0 then {} else UpTo(n - 1) + {n}
  }

  lemma {:induction false} UpToSize(n: nat)
    ensures |UpTo(n)| == n
    ensures forall x: int :: x in UpTo(n) <==> 1 <= x <= n
  {
    if n != 0 {
      UpToSize(n - 1);
    }
  }

  ghost function Powers(n: nat): set<int>
  {
    set i: nat | i < n :: Gen(i)
  }

  lemma {:induction false} PowersSize(n: nat)
    requires n <= 255
    ensures |Powers(n)| == n
  {
    hide Gen;
    if n == 0 {
      assert Powers(0) == {};
    } else {
      PowersSize(n - 1);
      assert Powers(n) == Powers(n - 1) + {Gen(n - 1)};
      forall i: nat | i < n - 1
        ensures Gen(i) != Gen(n - 1)
      {
        GenInjective(i, n - 1);
      }
    }
  }

  lemma EqualBySize(s: set<int>, t: set<int>)
    requires s <= t && |s| == |t|
    ensures s == t
  {
    assert t == s + (t - s);
    assert |t| == |s| + |t - s|;
  }

  /** Every non-zero byte has a logarithm below 255. */
  lemma {:induction false} LogExists(a: Byte)
    requires a != 0
    ensures exists i: nat :: i < 255 && Gen(i) == a
  {
    hide Gen, UpTo;
    PowersSize(255);
    UpToSize(255);
    forall x | x in Powers(255)
      ensures x in UpTo(255)
    {
      var i: nat :| i < 255 && Gen(i) == x;
      GenNonZero(i);
    }
    EqualBySize(Powers(255), UpTo(255));
    assert a in UpTo(255);
  }

  // ----- consequences: GF(256) is a field

  lemma {:induction false} InverseExists(a: Byte)
    requires a != 0
    ensures exists b: Byte :: b != 0 && Mul(a, b) == 1
  {
    hide Gen;
    LogExists(a);
    var i: nat :| i < 255 && Gen(i) == a;
    GenZero();
    GenLandmarks(0);
    GenAdd(i, 255 - i);
    GenNonZero(255 - i);
  }

  lemma NoZeroDivisors(a: Byte, b: Byte)
    ensures Mul(a, b) == 0 <==> a == 0 || b == 0
  {
    hide Mul, Add;
    MulZero(b);
    MulZero(a);
    MulComm(a, b);
    if a != 0 && b != 0 && Mul(a, b) == 0 {
      InverseExists(a);
      var c: Byte :| c != 0 && Mul(a, c) == 1;
      MulComm(a, c);
      MulAssoc(c, a, b);
      MulOne(b);
      MulZero(c);
      MulComm(0, c);
    }
  }
}
