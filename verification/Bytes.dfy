/** Byte strings and fixed-width big-endian integers. */
module Bytes {
  import opened Arithmetic

  type Byte = x: int | 0 <= x < 256

  type Bytes = seq<Byte>

  function Pow256(n: nat): (r: nat)
    ensures r >= 1
  {
    if n == 0 then 1 else 256 * Pow256(n - 1)
  }

  /** The low `width` bytes of n, most significant first (struct.pack(">I"), (">Q"), int.to_bytes). */
  function BigEndian(n: nat, width: nat): (b: Bytes)
    ensures |b| == width
  {
    if width == 0 then [] else BigEndian(n / 256, width - 1) + [n % 256]
  }

  function FromBigEndian(b: Bytes): nat
  {
    if b == [] then 0 else 256 * FromBigEndian(b[..|b| - 1]) + b[|b| - 1]
  }

  lemma FromSnoc(front: Bytes, last: Byte)
    ensures FromBigEndian(front + [last]) == 256 * FromBigEndian(front) + last && FromBigEndian([]) == 0
  {
    assert (front + [last])[..|front|] == front;
  }

  lemma {:induction false} BigEndianRoundTrip(n: nat, width: nat)
    requires n < Pow256(width)
    ensures FromBigEndian(BigEndian(n, width)) == n
  {
    hide FromBigEndian;
    if width == 0 {
      FromSnoc([], 0);
    } else {
      var front := BigEndian(n / 256, width - 1);
      assert n / 256 < Pow256(width - 1);
      BigEndianRoundTrip(n / 256, width - 1);
      FromSnoc(front, n % 256);
    }
  }

  lemma BigEndianInjective(m: nat, n: nat, width: nat)
    requires m < Pow256(width) && n < Pow256(width)
    ensures BigEndian(m, width) == BigEndian(n, width) ==> m == n
  {
    BigEndianRoundTrip(m, width);
    BigEndianRoundTrip(n, width);
  }

  /** Byte i counts from the most significant end. */
  lemma {:induction false} BigEndianByte(n: nat, width: nat, i: nat)
    requires i < width
    ensures BigEndian(n, width)[i] == (n / Pow256(width - 1 - i)) % 256
    decreases width
  {
    hide BigEndian;
    BigEndianSnoc(n, width);
    if i < width - 1 {
      BigEndianByte(n / 256, width - 1, i);
      DivTwice(n, 256, Pow256(width - 2 - i));
    }
  }

  lemma BigEndianSnoc(n: nat, width: nat)
    requires width > 0
    ensures BigEndian(n, width) == BigEndian(n / 256, width - 1) + [n % 256]
  {
  }

  lemma Widths()
    ensures Pow256(1) == 0x100
    ensures Pow256(4) == 0x1_0000_0000
    ensures Pow256(8) == 0x1_0000_0000_0000_0000
  {
  }

  /** A string behind its four-byte length. */
  function Sized(b: Bytes): Bytes
  {
    BigEndian(|b|, 4) + b
  }

  /** Text by its ASCII codes. */
  function Ascii(s: string): (b: Bytes)
    ensures |b| == |s|
  {
    seq(|s|, i requires 0 <= i < |s| => s[i] as int % 256)
  }

  function Zeros(n: nat): (b: Bytes)
    ensures |b| == n
  {
    seq(n, _ => 0)
  }
}
