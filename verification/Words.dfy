// The bits of 32-bit machine words and of bytes, and how the word operations the code uses
// (exclusive or, right shift, masking) act on them.
module Words {
  import opened Register

  type byte = bv8

  const POLYNOMIAL: bv32 := 0xEDB8_8320
  const ONES: bv32 := 0xFFFF_FFFF

  function Mask(i: nat): (m: bv32)
    ensures m & (m - 1) == 0
  {
    if i == 0 then 1 else Mask(i - 1) << 1
  }

  predicate Has(c: bv32, m: bv32) { c & m != 0 }

  function Word(c: bv32): (r: Reg)
    ensures forall i | 0 <= i < 32 :: r[i] == Has(c, Mask(i))
  {
    seq(32, i requires 0 <= i < 32 => Has(c, Mask(i)))
  }

  /** The bits of a byte, lowest first. */
  function ByteBits(b: byte): (r: seq<bool>)
    ensures |r| == 8
  {
    Word(b as bv32)[..8]
  }

  function Bits(data: seq<byte>): (r: seq<bool>)
    ensures |r| == 8 * |data|
  {
    if data == [] then [] else ByteBits(data[0]) + Bits(data[1..])
  }

  lemma MaskValues()
    ensures Mask(0) == 0x1 && Mask(1) == 0x2 && Mask(2) == 0x4 && Mask(3) == 0x8
    ensures Mask(4) == 0x10 && Mask(5) == 0x20 && Mask(6) == 0x40 && Mask(7) == 0x80
    ensures Mask(8) == 0x100 && Mask(9) == 0x200 && Mask(10) == 0x400 && Mask(11) == 0x800
    ensures Mask(12) == 0x1000 && Mask(13) == 0x2000 && Mask(14) == 0x4000 && Mask(15) == 0x8000
    ensures Mask(16) == 0x10000 && Mask(17) == 0x20000 && Mask(18) == 0x40000 && Mask(19) == 0x80000
    ensures Mask(20) == 0x100000 && Mask(21) == 0x200000 && Mask(22) == 0x400000 && Mask(23) == 0x800000
    ensures Mask(24) == 0x1000000 && Mask(25) == 0x2000000 && Mask(26) == 0x4000000 && Mask(27) == 0x8000000
    ensures Mask(28) == 0x10000000 && Mask(29) == 0x20000000 && Mask(30) == 0x40000000 && Mask(31) == 0x80000000
  {
    assert Mask(4) == 0x10 && Mask(8) == 0x100 && Mask(12) == 0x1000;
  }

  lemma MaskNonzero(i: nat)
    requires i <= 31
    ensures Mask(i) != 0
    decreases 31 - i
  {
    if i == 31 {
      MaskValues();
    } else {
      MaskNonzero(i + 1);
    }
  }

  lemma MaskTop(i: nat)
    requires i < 31
    ensures Mask(i) & 0x8000_0000 == 0
  {
    MaskNonzero(i + 1);
    OneHotTop(Mask(i));
  }

  lemma OneHotTop(m: bv32)
    requires m & (m - 1) == 0 && m << 1 != 0
    ensures m & 0x8000_0000 == 0
  {
  }

  lemma XorBit(a: bv32, b: bv32, m: bv32)
    requires m & (m - 1) == 0
    ensures Has(a ^ b, m) == (Has(a, m) != Has(b, m))
  {
  }

  lemma WordOfXor(a: bv32, b: bv32)
    ensures Word(a ^ b) == Xor(Word(a), Word(b))
  {
    forall i | 0 <= i < 32
      ensures Has(a ^ b, Mask(i)) == (Has(a, Mask(i)) != Has(b, Mask(i)))
    {
      XorBit(a, b, Mask(i));
    }
  }

  lemma ShiftBit(a: bv32, m: bv32)
    requires m & 0x8000_0000 == 0
    ensures Has(a >> 1, m) == Has(a, m << 1)
  {
  }

  lemma SameBits(r: Reg, t: Reg)
    requires forall i | 0 <= i < 32 :: r[i] == t[i]
    ensures r == t
  {
  }

  lemma ShiftedBit(a: bv32, i: nat)
    requires i < 32
    ensures Has(a >> 1, Mask(i)) == (i < 31 && Has(a, Mask(i + 1)))
  {
    if i < 31 {
      MaskTop(i);
      ShiftBit(a, Mask(i));
    } else {
      MaskValues();
      TopAfterShift(a);
    }
  }

  lemma TopAfterShift(a: bv32)
    ensures (a >> 1) & 0x8000_0000 == 0
  {
  }

  lemma WordOfShift(a: bv32)
    ensures Word(a >> 1) == Shifted(Word(a))
  {
    forall i: nat | i < 32
      ensures Word(a >> 1)[i] == Shifted(Word(a))[i]
    {
      ShiftedBit(a, i);
    }
    SameBits(Word(a >> 1), Shifted(Word(a)));
  }

  lemma WordOfPolynomial()
    ensures Word(POLYNOMIAL) == Generator()
  {
    forall i: nat | i < 32
      ensures Has(POLYNOMIAL, Mask(i)) == (31 - i in EXPONENTS)
    {
      PolynomialBit(i);
    }
  }

  lemma PolynomialBit(i: nat)
    requires i < 32
    ensures Has(POLYNOMIAL, Mask(i)) == (31 - i in EXPONENTS)
  {
    MaskValues();
    match i
    case 0 => case 1 => case 2 => case 3 => case 4 => case 5 => case 6 => case 7 =>
    case 8 => case 9 => case 10 => case 11 => case 12 => case 13 => case 14 => case 15 =>
    case 16 => case 17 => case 18 => case 19 => case 20 => case 21 => case 22 => case 23 =>
    case 24 => case 25 => case 26 => case 27 => case 28 => case 29 => case 30 => case 31 =>
  }

  lemma MaskUp(i: nat)
    ensures Mask(i + 8) == Mask(i) << 8
  {
    if i == 0 {
      MaskValues();
    } else {
      MaskUp(i - 1);
      ShiftsCommute(Mask(i - 1), Mask(i + 7));
    }
  }

  lemma ShiftsCommute(m: bv32, p: bv32)
    requires p == m << 8
    ensures p << 1 == (m << 1) << 8
  {
  }

  lemma OneHotLow24(m: bv32)
    requires m & (m - 1) == 0 && m << 8 != 0
    ensures m & 0xFF00_0000 == 0
  {
  }

  lemma MaskTopByte(i: nat)
    requires 24 <= i
    ensures Mask(i) & 0xFF_FFFF == 0
  {
    if i == 24 {
      MaskValues();
    } else {
      MaskTopByte(i - 1);
    }
  }

  lemma ShiftBit8(a: bv32, m: bv32)
    ensures m & 0xFF00_0000 == 0 ==> Has(a >> 8, m) == Has(a, m << 8)
    ensures m & 0xFF_FFFF == 0 ==> !Has(a >> 8, m)
  {
  }

  lemma WordOfShift8(a: bv32)
    ensures Word(a >> 8) == Word(a)[8..] + Zeros(8)
  {
    forall i: nat | i < 32
      ensures Has(a >> 8, Mask(i)) == (i < 24 && Has(a, Mask(i + 8)))
    {
      ShiftBit8(a, Mask(i));
      if i < 24 {
        MaskUp(i);
        MaskNonzero(i + 8);
        OneHotLow24(Mask(i));
      } else {
        MaskTopByte(i);
      }
    }
    var r: Reg := Word(a)[8..] + Zeros(8);
    assert forall i | 0 <= i < 32 :: r[i] == (i < 24 && Word(a)[i + 8]);
    assert forall i | 0 <= i < 32 :: Word(a >> 8)[i] == r[i];
  }

  lemma WordOfLow(a: bv32)
    ensures Word(a & 0xFF) == Word(a)[..8] + Zeros(24)
  {
  }

  lemma WordInjective(a: bv32, b: bv32)
    requires Word(a) == Word(b)
    ensures a == b
  {
    WordOfXor(a, b);
    assert Word(a ^ b) == Zeros(32);
    ZeroWord(a ^ b);
    XorZero(a, b);
  }

  lemma XorZero(a: bv32, b: bv32)
    requires a ^ b == 0
    ensures a == b
  {
  }

  lemma ZeroWord(a: bv32)
    requires Word(a) == Zeros(32)
    ensures a == 0
  {
    forall i: nat | i < 32
      ensures a & Mask(i) == 0
    {
      assert !Zeros(32)[i];
    }
    MaskValues();
  }
}
