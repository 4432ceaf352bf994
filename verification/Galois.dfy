/**
 The field GF(2^8) behind the erasure coder: exclusive-or as addition and shift-and-xor
 multiplication modulo x^8 + x^4 + x^3 + x^2 + 1 (0x11D).  Bytes are integers, as in the
 program, so that they can index the logarithm table directly.
 */
module Galois {
  import opened Bytes

  const MODULUS: nat := 0x11D

  function Exp2(n: nat): (r: nat)
    ensures r >= 1
  {
    if n == 0 then 1 else 2 * Exp2(n - 1)
  }

  /** Bitwise exclusive or of two non-negative integers. */
  function Xor(a: nat, b: nat): nat
    decreases a + b
  {
    if a == 0 then b
    else if b == 0 then a
    else (a % 2 + b % 2) % 2 + 2 * Xor(a / 2, b / 2)
  }

  lemma {:induction false} XorStep(a: nat, b: nat)
    ensures Xor(a, b) == (a % 2 + b % 2) % 2 + 2 * Xor(a / 2, b / 2)
  {
  }

  lemma {:induction false} XorParts(a: nat, b: nat)
    ensures Xor(a, b) % 2 == (a % 2 + b % 2) % 2
    ensures Xor(a, b) / 2 == Xor(a / 2, b / 2)
  {
    hide Xor;
    XorStep(a, b);
    HalveShifted((a % 2 + b % 2) % 2, Xor(a / 2, b / 2));
  }

  lemma {:induction false} XorComm(a: nat, b: nat)
    ensures Xor(a, b) == Xor(b, a)
    decreases a + b
  {
    if a != 0 && b != 0 {
      XorComm(a / 2, b / 2);
    }
  }

  lemma {:induction false} XorSelf(a: nat)
    ensures Xor(a, a) == 0
  {
    if a != 0 {
      XorSelf(a / 2);
    }
  }

  lemma BitAssoc(p: nat, q: nat, r: nat)
    ensures ((p % 2 + q % 2) % 2 + r % 2) % 2 == (p % 2 + (q % 2 + r % 2) % 2) % 2
  {
  }

  lemma XorIdentity(a: nat)
    ensures Xor(a, 0) == a && Xor(0, a) == a
  {
  }

  lemma {:induction false} XorAssoc(a: nat, b: nat, c: nat)
    ensures Xor(Xor(a, b), c) == Xor(a, Xor(b, c))
    decreases a + b + c
  {
    hide Xor;
    if a == 0 {
      XorIdentity(b);
      XorIdentity(Xor(b, c));
    } else if b == 0 {
      XorIdentity(a);
      XorIdentity(c);
    } else if c == 0 {
      XorIdentity(b);
      XorIdentity(Xor(a, b));
    } else {
      XorAssoc(a / 2, b / 2, c / 2);
      XorAssocStep(a, b, c);
    }
  }

  lemma XorAssocStep(a: nat, b: nat, c: nat)
    requires Xor(Xor(a / 2, b / 2), c / 2) == Xor(a / 2, Xor(b / 2, c / 2))
    ensures Xor(Xor(a, b), c) == Xor(a, Xor(b, c))
  {
    hide Xor;
    var ab, bc := Xor(a, b), Xor(b, c);
    XorParts(a, b);
    XorParts(b, c);
    XorStep(ab, c);
    XorStep(a, bc);
    assert (ab % 2 + c % 2) % 2 == (a % 2 + bc % 2) % 2 by { BitAssoc(a, b, c); }
  }

  lemma {:induction false} XorDouble(a: nat, b: nat)
    ensures Xor(2 * a, 2 * b) == 2 * Xor(a, b)
  {
    hide Xor;
    XorStep(2 * a, 2 * b);
    HalveShifted(0, a);
    HalveShifted(0, b);
  }

  lemma HalveShifted(a: nat, h: nat)
    ensures (a + 2 * h) / 2 == a / 2 + h && (a + 2 * h) % 2 == a % 2
  {
  }

  lemma {:induction false} XorBound(a: nat, b: nat, n: nat)
    requires a < Exp2(n) && b < Exp2(n)
    ensures Xor(a, b) < Exp2(n)
  {
    if n != 0 {
      XorBound(a / 2, b / 2, n - 1);
      XorStep(a, b);
    }
  }

  lemma XorTiny()
    ensures Xor(0, 0) == 0 && Xor(1, 0) == 1 && Xor(1, 1) == 0
  {
  }

  /** A bit above both operands is kept when one side has it. */
  lemma {:induction false} XorHighBit(a: nat, b: nat, n: nat)
    requires a < Exp2(n) && b < Exp2(n)
    ensures Xor(a + Exp2(n), b) == Xor(a, b) + Exp2(n)
  {
    hide Xor;
    if n == 0 {
      XorTiny();
    } else {
      XorHighBit(a / 2, b / 2, n - 1);
      XorStep(a, b);
      HalveShifted(a, Exp2(n - 1));
      XorStep(a + Exp2(n), b);
    }
  }

  /** It cancels when both have it. */
  lemma {:induction false} XorHighBits(a: nat, b: nat, n: nat)
    requires a < Exp2(n) && b < Exp2(n)
    ensures Xor(a + Exp2(n), b + Exp2(n)) == Xor(a, b)
  {
    hide Xor;
    if n == 0 {
      XorTiny();
    } else {
      XorHighBits(a / 2, b / 2, n - 1);
      XorStep(a, b);
      HalveShifted(a, Exp2(n - 1));
      HalveShifted(b, Exp2(n - 1));
      XorStep(a + Exp2(n), b + Exp2(n));
    }
  }

  lemma {:induction false} XorByte(a: Byte, b: Byte)
    ensures Xor(a, b) < 256
    ensures Xor(a + 256, b) == Xor(a, b) + 256
    ensures Xor(a + 256, b + 256) == Xor(a, b)
  {
    assert Exp2(8) == 256;
    XorBound(a, b, 8);
    XorHighBit(a, b, 8);
    XorHighBits(a, b, 8);
  }

  /** Addition (and subtraction) in the field. */
  function Add(a: Byte, b: Byte): Byte
  {
    XorByte(a, b);
    Xor(a, b)
  }

  /** Multiplication by x: one step of the table-filling loop. */
  function Double(a: Byte): Byte
  {
    if 2 * a < 256 then 2 * a
    else
      XorByte(2 * a - 256, MODULUS - 256);
      Xor(2 * a, MODULUS)
  }

  /** Shift-and-xor multiplication, reading the bits of b from the top. */
  function Mul(a: Byte, b: nat): Byte
    decreases b
  {
    if b == 0 then 0
    else Add(if b % 2 == 1 then a else 0, Double(Mul(a, b / 2)))
  }

  /** Multiplying by 2 shifts, and reduces by x^8 + x^4 + x^3 + x^2 + 1 when the top bit leaves. */
  lemma DoubleMeans(a: Byte)
    ensures Mul(a, 2) == Double(a)
    ensures a < 128 ==> Double(a) == 2 * a
    ensures a >= 128 ==> Double(a) == Xor(2 * a - 256, 0x1D)
    ensures Double(128) == 0x1D
  {
    hide Xor, Double;
    AddZeros(a);
    assert Mul(a, 1) == Add(a, Double(Mul(a, 0)));
    assert Mul(a, 2) == Add(0, Double(Mul(a, 1)));
    DoubleShape(a);
    DoubleShape(128);
    XorIdentity(0x1D);
  }

  lemma AddZeros(a: Byte)
    ensures Add(a, 0) == a && Add(0, a) == a && Double(0) == 0 && Add(0, Double(a)) == Double(a)
  {
  }

  lemma DoubleShape(a: Byte)
    ensures a < 128 ==> Double(a) == 2 * a
    ensures a >= 128 ==> Double(a) == Xor(2 * a - 256, 0x1D)
  {
    if a >= 128 {
      hide Xor;
      assert Exp2(8) == 256 by {
        assert Exp2(4) == 16;
      }
      XorHighBits(2 * a - 256, 0x1D, 8);
    }
  }

  // ----- addition is an abelian group of exponent two

  lemma {:induction false} AddLaws(a: Byte, b: Byte, c: Byte)
    ensures Add(a, b) == Add(b, a)
    ensures Add(Add(a, b), c) == Add(a, Add(b, c))
    ensures Add(a, a) == 0 && Add(a, 0) == a && Add(0, a) == a
  {
    XorComm(a, b);
    XorAssoc(a, b, c);
    XorSelf(a);
  }

  lemma AddSwap(a: Byte, b: Byte, c: Byte, d: Byte)
    ensures Add(Add(a, b), Add(c, d)) == Add(Add(a, c), Add(b, d))
  {
    AddLaws(Add(a, b), c, d);
    AddLaws(a, b, c);
    AddLaws(b, c, c);
    AddLaws(a, c, b);
    AddLaws(Add(a, c), b, d);
  }

  lemma AddCancel(a: Byte, b: Byte)
    ensures Add(Add(a, b), b) == a
    ensures Add(a, b) == 0 <==> a == b
  {
    AddLaws(a, b, b);
    AddLaws(b, b, b);
    AddLaws(a, a, b);
  }

  // ----- multiplication

  lemma {:induction false} DoubleAdd(a: Byte, b: Byte)
    ensures Double(Add(a, b)) == Add(Double(a), Double(b))
  {
    XorDouble(a, b);
    var x, y := 2 * a, 2 * b;
    var u, v := if x < 256 then x else x - 256, if y < 256 then y else y - 256;
    var m := MODULUS - 256;
    XorByte(u, v);
    XorByte(v, u);
    XorByte(u, m);
    XorByte(v, m);
    XorByte(Add(u, v), m);
    XorComm(u, v + 256);
    XorComm(u, v);
    if x >= 256 && y >= 256 {
      AddSwap(u, m, v, m);
      AddLaws(m, m, m);
      AddLaws(Add(u, v), m, m);
    } else if x >= 256 {
      AddLaws(u, v, m);
      AddLaws(u, m, v);
      AddLaws(v, m, m);
    } else if y >= 256 {
      AddLaws(u, v, m);
    }
  }

  lemma {:induction false} MulZero(b: nat)
    ensures Mul(0, b) == 0
  {
    if b != 0 {
      MulZero(b / 2);
    }
  }

  lemma {:induction false} MulAddLeft(a: Byte, b: Byte, c: nat)
    ensures Mul(Add(a, b), c) == Add(Mul(a, c), Mul(b, c))
    decreases c
  {
    if c != 0 {
      MulAddLeft(a, b, c / 2);
      var p, q := Mul(a, c / 2), Mul(b, c / 2);
      DoubleAdd(p, q);
      if c % 2 == 1 {
        AddSwap(a, b, Double(p), Double(q));
      }
    }
  }

  lemma {:induction false} MulStep(a: Byte, b: nat)
    ensures Mul(a, b) == Add(if b % 2 == 1 then a else 0, Double(Mul(a, b / 2)))
  {
  }

  lemma {:induction false} MulAddRight(a: Byte, b: nat, c: nat)
    ensures Mul(a, Xor(b, c)) == Add(Mul(a, b), Mul(a, c))
    decreases b + c
  {
    if b == 0 || c == 0 {
      AddLaws(Mul(a, b), Mul(a, c), 0);
    } else {
      MulAddRightStep(a, b, c);
    }
  }

  lemma {:induction false} MulAddRightStep(a: Byte, b: nat, c: nat)
    requires b != 0 && c != 0
    ensures Mul(a, Xor(b, c)) == Add(Mul(a, b), Mul(a, c))
    decreases b + c, 0
  {
    hide Xor, Mul, Add, Double;
    var p, q := Mul(a, b / 2), Mul(a, c / 2);
    var s, t := if b % 2 == 1 then a else 0, if c % 2 == 1 then a else 0;
    calc {
      Mul(a, Xor(b, c));
      { MulStep(a, Xor(b, c)); XorParts(b, c); AddLaws(s, t, t); AddLaws(a, 0, 0); }
      Add(Add(s, t), Double(Mul(a, Xor(b / 2, c / 2))));
      { MulAddRight(a, b / 2, c / 2); DoubleAdd(p, q); }
      Add(Add(s, t), Add(Double(p), Double(q)));
      { AddSwap(s, t, Double(p), Double(q)); }
      Add(Add(s, Double(p)), Add(t, Double(q)));
      { MulStep(a, b); MulStep(a, c); }
      Add(Mul(a, b), Mul(a, c));
    }
  }

  lemma {:induction false} MulDoubleLeft(a: Byte, b: nat)
    ensures Mul(Double(a), b) == Double(Mul(a, b))
  {
    if b != 0 {
      MulDoubleLeft(a, b / 2);
      DoubleAdd(if b % 2 == 1 then a else 0, Double(Mul(a, b / 2)));
    }
  }

  /** A byte is its low bit plus twice its upper seven bits. */
  lemma {:induction false} SplitByte(a: Byte)
    ensures Double(a / 2) == 2 * (a / 2)
    ensures Add(a % 2, Double(a / 2)) == a
  {
    XorStep(a % 2, 2 * (a / 2));
  }

  lemma {:induction false} MulOne(a: Byte)
    ensures Mul(1, a) == a && Mul(a, 1) == a
  {
    if a != 0 {
      MulOne(a / 2);
      SplitByte(a);
    }
    assert Mul(a, 0) == 0 && Double(0) == 0;
    AddLaws(a, a, a);
  }

  /** The reduction polynomial is zero in the field. */
  lemma {:induction false} MulModulus(a: Byte)
    ensures Mul(a, MODULUS) == 0
  {
    if a == 0 {
      MulZero(MODULUS);
    } else if a == 1 {
      MulOne(142);
      XorStep(284, MODULUS);
      XorSelf(142);
      XorSelf(1);
    } else {
      MulModulus(a / 2);
      MulModulus(a % 2);
      SplitByte(a);
      MulAddLeft(a % 2, Double(a / 2), MODULUS);
      MulDoubleLeft(a / 2, MODULUS);
    }
  }

  lemma {:induction false} MulDoubleRight(a: Byte, b: Byte)
    ensures Mul(a, Double(b)) == Double(Mul(a, b))
  {
    assert Mul(a, 2 * b) == Double(Mul(a, b)) by {
      assert b == 0 ==> Double(Mul(a, b)) == 0;
      assert (2 * b) / 2 == b && (2 * b) % 2 == 0;
      AddLaws(Double(Mul(a, b)), 0, 0);
    }
    if 2 * b >= 256 {
      MulAddRight(a, 2 * b, MODULUS);
      MulModulus(a);
    }
  }

  lemma {:induction false} MulComm(a: Byte, b: Byte)
    ensures Mul(a, b) == Mul(b, a)
    decreases b
  {
    if b == 0 {
      MulZero(a);
    } else {
      MulComm(a, b / 2);
      SplitByte(b);
      MulAddLeft(b % 2, Double(b / 2), a);
      MulDoubleLeft(b / 2, a);
      MulOne(a);
      MulZero(a);
    }
  }

  lemma {:induction false} MulAssoc(a: Byte, b: Byte, c: Byte)
    ensures Mul(Mul(a, b), c) == Mul(a, Mul(b, c))
    decreases c
  {
    if c != 0 {
      MulAssoc(a, b, c / 2);
      MulDoubleRight(a, Mul(b, c / 2));
      var s := if c % 2 == 1 then b else 0;
      MulAddRight(a, s, Double(Mul(b, c / 2)));
    }
  }

  lemma Distribute(a: Byte, b: Byte, c: Byte)
    ensures Mul(a, Add(b, c)) == Add(Mul(a, b), Mul(a, c))
  {
    MulAddRight(a, b, c);
  }
}
