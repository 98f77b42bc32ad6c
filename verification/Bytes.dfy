/** Octets, the big-endian unsigned integers that the wire formats are made of, and the
    exclusive or of two octets. */
module Bytes {

  type Byte = n: nat | n < 0x100
  type U32 = n: nat | n < 0x1_0000_0000
  type U64 = n: nat | n < 0x1_0000_0000_0000_0000

  function Power(base: nat, exponent: nat): (r: nat)
    requires 0 < base
    ensures 0 < r
  {
    if exponent == 0 then 1 else base * Power(base, exponent - 1)
  }

  // ---------------------------------------------------------------- big-endian integers

  function BigEndian(n: nat, width: nat): (s: seq<Byte>)
    ensures |s| == width
  {
    if width == 0 then [] else BigEndian(n / 256, width - 1) + [n % 256]
  }

  function FromBigEndian(s: seq<Byte>): (n: nat)
    ensures n < Power(256, |s|)
  {
    if s == [] then 0 else FromBigEndian(s[..|s| - 1]) * 256 + s[|s| - 1]
  }

  /** Writing a number that fits and reading it back. */
  lemma {:induction false} ReadBack(n: nat, width: nat)
    requires n < Power(256, width)
    ensures FromBigEndian(BigEndian(n, width)) == n
  {
    if width > 0 {
      ReadBack(n / 256, width - 1);
      assert BigEndian(n, width)[..width - 1] == BigEndian(n / 256, width - 1);
    }
  }

  /** Reading octets and writing the number back. */
  lemma {:induction false} WriteBack(s: seq<Byte>)
    ensures BigEndian(FromBigEndian(s), |s|) == s
  {
    if s != [] {
      var front := s[..|s| - 1];
      WriteBack(front);
      assert s == front + [s[|s| - 1]];
    }
  }

  lemma Widths()
    ensures Power(256, 2) == 0x1_0000
    ensures Power(256, 4) == 0x1_0000_0000
    ensures Power(256, 8) == 0x1_0000_0000_0000_0000
  {
    assert Power(256, 1) == 0x100;
    assert Power(256, 3) == 0x100_0000;
    assert Power(256, 5) == 0x100_0000_0000;
    assert Power(256, 6) == 0x1_0000_0000_0000;
    assert Power(256, 7) == 0x100_0000_0000_0000;
  }

  // ---------------------------------------------------------------- exclusive or

  /** Exclusive or of the low `bits` bits. */
  function XorBits(a: nat, b: nat, bits: nat): (r: nat)
    ensures r < Power(2, bits)
  {
    if bits == 0 then 0 else 2 * XorBits(a / 2, b / 2, bits - 1) + (a + b) % 2
  }

  lemma EightBits()
    ensures Power(2, 8) == 256
  {
    assert Power(2, 4) == 16;
  }

  function Xor(a: Byte, b: Byte): Byte {
    EightBits();
    XorBits(a, b, 8)
  }

  lemma {:induction false} XorBitsTwice(a: nat, b: nat, bits: nat)
    requires a < Power(2, bits)
    ensures XorBits(b, XorBits(a, b, bits), bits) == a
  {
    if bits > 0 {
      XorBitsTwice(a / 2, b / 2, bits - 1);
      LowBit(a, b, XorBits(a / 2, b / 2, bits - 1));
    }
  }

  lemma EvenPart(half: nat, rest: nat)
    ensures (2 * half + rest) % 2 == rest % 2
  {
  }

  lemma LowBit(a: nat, b: nat, high: nat)
    ensures var d := 2 * high + (a + b) % 2;
            d / 2 == high && (b + d) % 2 == a % 2
  {
    var i, j := a % 2, b % 2;
    assert a == 2 * (a / 2) + i && b == 2 * (b / 2) + j;
    EvenPart(a / 2 + b / 2, i + j);
    assert a + b == 2 * (a / 2 + b / 2) + (i + j);
    var p := (i + j) % 2;
    EvenPart(b / 2 + high, j + p);
    assert b + (2 * high + p) == 2 * (b / 2 + high) + (j + p);
  }

  lemma {:induction false} XorBitsZero(a: nat, b: nat, bits: nat)
    requires a < Power(2, bits) && b < Power(2, bits)
    ensures XorBits(a, b, bits) == 0 <==> a == b
  {
    if bits > 0 {
      XorBitsZero(a / 2, b / 2, bits - 1);
      Halves(a, b);
    }
  }

  lemma Halves(a: nat, b: nat)
    ensures a == b <==> a / 2 == b / 2 && (a + b) % 2 == 0
  {
    var i, j := a % 2, b % 2;
    assert a == 2 * (a / 2) + i && b == 2 * (b / 2) + j;
    EvenPart(a / 2 + b / 2, i + j);
    assert a + b == 2 * (a / 2 + b / 2) + (i + j);
  }

  /** The difference against a base, applied to the base, gives the original back; it is zero
      exactly when the two agree. */
  lemma XorUndoes(a: Byte, b: Byte)
    ensures Xor(b, Xor(a, b)) == a
    ensures Xor(a, b) == 0 <==> a == b
  {
    EightBits();
    XorBitsTwice(a, b, 8);
    XorBitsZero(a, b, 8);
  }
}
