// The table-driven CRC-32 of cpp/stuff.hpp, refined against the serial register of the standard.
module Crc32 {
  import opened Register
  import opened Words

  /** One turn of the inner loop of the table generator. */
  function Shift(c: bv32): bv32 {
    if c & 1 != 0 then POLYNOMIAL ^ (c >> 1) else c >> 1
  }

  function Shifts(c: bv32, n: nat): bv32 {
    if n == 0 then c else Shift(Shifts(c, n - 1))
  }

  /** The table entry of a low byte: eight bit steps at once. */
  function Entry(low: bv32): bv32 { Shifts(low, 8) }

  function Rest(c: bv32): bv32 { c >> 8 }

  function Mix(rest: bv32, entry: bv32): bv32 { rest ^ entry }

  function LookUp(c: bv32, entry: bv32): bv32 { Mix(Rest(c), entry) }

  function Low(c: bv32): bv32 { c & 0xFF }

  function Mixed(c: bv32, b: byte): bv32 { c ^ (b as bv32) }

  /** One byte of input. */
  function ByteStep(c: bv32, b: byte): bv32 {
    LookUp(c, Entry(Low(Mixed(c, b))))
  }

  function Run(c: bv32, data: seq<byte>): bv32
    decreases data
  {
    if data == [] then c else Run(ByteStep(c, data[0]), data[1..])
  }

  /** The checksum as the code computes it. */
  function Crc(data: seq<byte>): bv32 {
    !Run(ONES, data)
  }

  /** The checksum as section 8 of RFC 1952 defines it, bit by bit. */
  function Standard(data: seq<byte>): Reg {
    Xor(Serial(Ones(), Bits(data)), Ones())
  }

  lemma WordOfStep(c: bv32)
    ensures Word(Shift(c)) == Feed(Word(c), false)
  {
    WordOfShift(c);
    WordOfXor(POLYNOMIAL, c >> 1);
    WordOfPolynomial();
    assert Mask(0) == 1;
    assert Word(c)[0] == (c & 1 != 0);
    assert Xor(Generator(), Shifted(Word(c))) == Xor(Shifted(Word(c)), Generator());
  }

  lemma {:induction false} WordOfSteps(c: bv32, n: nat)
    ensures Word(Shifts(c, n)) == Serial(Word(c), Zeros(n))
  {
    if n > 0 {
      WordOfSteps(c, n - 1);
      WordOfStep(Shifts(c, n - 1));
      assert Zeros(n) == Zeros(n - 1) + [false];
      SerialConcat(Word(c), Zeros(n - 1), [false]);
    }
  }

  lemma WordOfByte(b: byte)
    ensures Word(b as bv32) == ByteBits(b) + Zeros(24)
  {
  }

  /** One table look-up does the work of eight turns of the serial register. */
  lemma ByteStepRefines(c: bv32, b: byte)
    ensures Word(ByteStep(c, b)) == Serial(Word(c), ByteBits(b))
  {
    var u := Mixed(c, b);
    MixedWords(c, b, u);
    ByteEnters(Word(c), ByteBits(b), Word(u), Word(Low(u)), Word(Rest(c)));
    WordOfSteps(Low(u), 8);
    WordOfLookUp(c, Entry(Low(u)));
  }

  lemma WordOfLookUp(c: bv32, entry: bv32)
    ensures Word(LookUp(c, entry)) == Xor(Word(Rest(c)), Word(entry))
  {
    WordOfMix(Rest(c), entry);
  }

  lemma WordOfMix(rest: bv32, entry: bv32)
    ensures Word(Mix(rest, entry)) == Xor(Word(rest), Word(entry))
  {
    WordOfXor(rest, entry);
  }

  lemma MixedWords(c: bv32, b: byte, u: bv32)
    requires u == Mixed(c, b)
    ensures Word(u) == Xor(Word(c), ByteBits(b) + Zeros(24))
    ensures Word(Low(u)) == Word(u)[..8] + Zeros(24)
    ensures Word(Rest(c)) == Word(c)[8..] + Zeros(8)
  {
    WordOfByte(b);
    WordOfXor(c, b as bv32);
    WordOfLow(u);
    WordOfShift8(c);
  }

  lemma {:induction false} RunRefines(c: bv32, data: seq<byte>)
    ensures Word(Run(c, data)) == Serial(Word(c), Bits(data))
    decreases data
  {
    if data != [] {
      ByteStepRefines(c, data[0]);
      RunRefines(ByteStep(c, data[0]), data[1..]);
      SerialConcat(Word(c), ByteBits(data[0]), Bits(data[1..]));
    }
  }

  lemma WordOfOnes()
    ensures Word(ONES) == Ones()
  {
    forall i: nat | i < 32
      ensures Has(ONES, Mask(i))
    {
      MaskNonzero(i);
      OnesHas(Mask(i));
    }
  }

  lemma OnesHas(m: bv32)
    requires m != 0
    ensures Has(ONES, m)
  {
  }

  lemma NotIsXor(c: bv32)
    ensures !c == c ^ ONES
  {
  }

  /** The table-driven checksum is the checksum of the standard, for every byte string. */
  lemma CrcRefinesStandard(data: seq<byte>)
    ensures Word(Crc(data)) == Standard(data)
  {
    RunRefines(ONES, data);
    WordOfOnes();
    NotIsXor(Run(ONES, data));
    WordOfXor(Run(ONES, data), ONES);
  }

  // ------------------------------------------------------------------ what the checksum detects

  lemma BitsConcat(a: seq<byte>, b: seq<byte>)
    ensures Bits(a + b) == Bits(a) + Bits(b)
  {
    if a == [] {
      assert a + b == b;
    } else {
      assert (a + b)[1..] == a[1..] + b;
      BitsConcat(a[1..], b);
    }
  }

  lemma ByteBitsInjective(a: byte, b: byte)
    requires ByteBits(a) == ByteBits(b)
    ensures a == b
  {
    WordOfByte(a);
    WordOfByte(b);
    WordInjective(a as bv32, b as bv32);
  }

  lemma {:induction false} BitsInjective(a: seq<byte>, b: seq<byte>)
    requires |a| == |b| && Bits(a) == Bits(b)
    ensures a == b
  {
    if a != [] {
      assert Bits(a)[..8] == ByteBits(a[0]) && Bits(b)[..8] == ByteBits(b[0]);
      assert Bits(a)[8..] == Bits(a[1..]) && Bits(b)[8..] == Bits(b[1..]);
      ByteBitsInjective(a[0], b[0]);
      BitsInjective(a[1..], b[1..]);
      assert a == [a[0]] + a[1..] && b == [b[0]] + b[1..];
    }
  }

  /** Two byte strings that differ only inside one run of at most 32 bits, at any bit position. */
  lemma CrcDetectsBurst(a: seq<byte>, b: seq<byte>,
                        before: seq<bool>, x: seq<bool>, y: seq<bool>, after: seq<bool>)
    requires Bits(a) == before + x + after && Bits(b) == before + y + after
    requires |x| == |y| <= 32 && a != b
    ensures Crc(a) != Crc(b)
  {
    if x == y {
      assert |a| == |b|;
      BitsInjective(a, b);
      assert false;
    }
    BurstDetected(Ones(), before, x, y, after);
    CrcRefinesStandard(a);
    CrcRefinesStandard(b);
    XorBack(Serial(Ones(), Bits(a)), Ones());
    XorBack(Serial(Ones(), Bits(b)), Ones());
  }

  /** Any change confined to four consecutive bytes changes the checksum. */
  lemma CrcDetectsWindow(before: seq<byte>, x: seq<byte>, y: seq<byte>, after: seq<byte>)
    requires |x| == |y| <= 4 && x != y
    ensures Crc(before + x + after) != Crc(before + y + after)
  {
    BitsConcat(before + x, after);
    BitsConcat(before, x);
    BitsConcat(before + y, after);
    BitsConcat(before, y);
    var a, b := before + x + after, before + y + after;
    assert a[|before|..|before| + |x|] == x && b[|before|..|before| + |x|] == y;
    CrcDetectsBurst(a, b, Bits(before), Bits(x), Bits(y), Bits(after));
  }

  // ------------------------------------------------------------------ the code's loops

  ghost predicate IsTable(table: array<bv32>)
    reads table
  {
    table.Length == 256 && forall i: nat | i < 256 :: table[i] == Entry(i as bv32)
  }

  method GenerateTable() returns (table: array<bv32>)
    ensures fresh(table) && IsTable(table)
  {
    table := new bv32[256];
    for i := 0 to 256
      invariant forall k: nat | k < i :: table[k] == Entry(k as bv32)
    {
      var ch := i as bv32;
      for j := 0 to 8
        invariant ch == Shifts(i as bv32, j)
      {
        ch := Shift(ch);
      }
      table[i] := ch;
    }
  }

  lemma IndexBack(low: bv32)
    ensures low < 256 ==> 0 <= low as int < 256
    ensures (low as int) as bv32 == low
  {
  }

  lemma LowBound(c: bv32)
    ensures Low(c) < 256
  {
  }

  /** One access of the table, as each of the three loops makes it. */
  method TableAt(table: array<bv32>, word: bv32) returns (entry: bv32)
    requires IsTable(table)
    ensures entry == Entry(Low(word))
  {
    LowBound(word);
    IndexBack(Low(word));
    entry := table[Low(word) as int];
  }

  /** A signed char widened to 32 bits: its top bit fills the upper three bytes. */
  function SignExtend(b: byte): bv32 {
    if b & 0x80 != 0 then (b as bv32) | 0xFFFF_FF00 else b as bv32
  }

  function MixedSigned(c: bv32, b: byte): bv32 { c ^ SignExtend(b) }

  lemma LowByteOnly(c: bv32, b: byte)
    ensures Low(MixedSigned(c, b)) == Low(Mixed(c, b))
  {
  }

  lemma RunExtend(c: bv32, data: seq<byte>, b: byte)
    ensures Run(c, data + [b]) == ByteStep(Run(c, data), b)
    decreases data
  {
    if data == [] {
      assert data + [b] == [b];
      assert Run(ByteStep(c, b), []) == ByteStep(c, b);
    } else {
      assert (data + [b])[1..] == data[1..] + [b];
      RunExtend(ByteStep(c, data[0]), data[1..], b);
    }
  }

  method CrcOfString(data: seq<byte>) returns (r: bv32)
    ensures r == Crc(data)
  {
    var table := GenerateTable();
    var crc := ONES;
    for i := 0 to |data|
      invariant IsTable(table) && crc == Run(ONES, data[..i])
    {
      RunExtend(ONES, data[..i], data[i]);
      assert data[..i + 1] == data[..i] + [data[i]];
      var entry := TableAt(table, Mixed(crc, data[i]));
      crc := LookUp(crc, entry);
    }
    assert data[..|data|] == data;
    r := !crc;
  }

  /** The bytes a range form covers: none when end does not exceed start. */
  function Range(buf: seq<byte>, start: nat, end: nat): seq<byte>
    requires start <= |buf| && end <= |buf|
  {
    if end <= start then [] else buf[start..end]
  }

  method CrcOfUnsigned(buf: array<byte>, start: nat, end: nat) returns (r: bv32)
    requires start <= buf.Length && end <= buf.Length
    ensures r == Crc(Range(buf[..], start, end))
  {
    var table := GenerateTable();
    var crc := ONES;
    var p := 0;
    for i := 0 to start
      invariant p == i
    {
      p := p + 1;
    }
    var from := start;
    while end > from
      invariant start <= from && (from <= end || from == start) && p == from
      invariant crc == Run(ONES, buf[start..from])
      invariant IsTable(table)
    {
      RunExtend(ONES, buf[start..from], buf[p]);
      assert buf[start..from + 1] == buf[start..from] + [buf[p]];
      var entry := TableAt(table, Mixed(crc, buf[p]));
      crc := LookUp(crc, entry);
      p := p + 1;
      from := from + 1;
    }
    NotIsXor(crc);
    assert Range(buf[..], start, end) == buf[start..from];
    r := crc ^ ONES;
  }

  method CrcOfChars(buf: array<byte>, start: nat, end: nat) returns (r: bv32)
    requires start <= buf.Length && end <= buf.Length
    ensures r == Crc(Range(buf[..], start, end))
  {
    var table := GenerateTable();
    var crc := ONES;
    var p := 0;
    for i := 0 to start
      invariant p == i
    {
      p := p + 1;
    }
    var from := start;
    while end > from
      invariant start <= from && (from <= end || from == start) && p == from
      invariant crc == Run(ONES, buf[start..from])
      invariant IsTable(table)
    {
      RunExtend(ONES, buf[start..from], buf[p]);
      assert buf[start..from + 1] == buf[start..from] + [buf[p]];
      LowByteOnly(crc, buf[p]);
      var entry := TableAt(table, MixedSigned(crc, buf[p]));
      crc := LookUp(crc, entry);
      p := p + 1;
      from := from + 1;
    }
    NotIsXor(crc);
    assert Range(buf[..], start, end) == buf[start..from];
    r := crc ^ ONES;
  }
}
