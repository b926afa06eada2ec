// The serial 32-bit CRC register of section 8 of RFC 1952, over plain bits: message bits enter one
// at a time, lowest bit of each byte first. This is the reference the table-driven code is held to.
module Register {

  /** The exponents below 32 of the generator polynomial. */
  const EXPONENTS: set<int> := {26, 23, 22, 16, 12, 11, 10, 8, 7, 5, 4, 2, 1, 0}

  type Reg = s: seq<bool> | |s| == 32 witness seq(32, _ => false)

  function Zeros(n: nat): (r: seq<bool>)
    ensures |r| == n && forall i | 0 <= i < n :: !r[i]
  {
    seq(n, _ => false)
  }

  function Xor(a: seq<bool>, b: seq<bool>): (r: seq<bool>)
    requires |a| == |b|
    ensures |r| == |a| && forall i | 0 <= i < |a| :: r[i] == (a[i] != b[i])
  {
    seq(|a|, i requires 0 <= i < |a| => a[i] != b[i])
  }

  function Ones(): (r: Reg)
    ensures forall i | 0 <= i < 32 :: r[i]
  {
    seq(32, _ => true)
  }

  lemma XorBack(a: seq<bool>, b: seq<bool>)
    requires |a| == |b|
    ensures Xor(Xor(a, b), b) == a
  {
  }

  /** Reflected: position i of the register holds the coefficient of x^(31-i). */
  function Generator(): (r: Reg)
    ensures forall i | 0 <= i < 32 :: r[i] == (31 - i in EXPONENTS)
  {
    seq(32, i => 31 - i in EXPONENTS)
  }

  function Shifted(c: Reg): Reg { c[1..] + [false] }

  /** One message bit enters; the bit leaving the register decides whether the generator is added. */
  function Feed(c: Reg, bit: bool): Reg {
    if c[0] != bit then Xor(Shifted(c), Generator()) else Shifted(c)
  }

  function Serial(c: Reg, bits: seq<bool>): Reg
    decreases bits
  {
    if bits == [] then c else Serial(Feed(c, bits[0]), bits[1..])
  }

  lemma SerialConcat(c: Reg, a: seq<bool>, b: seq<bool>)
    ensures Serial(c, a + b) == Serial(Serial(c, a), b)
    decreases a
  {
    if a == [] {
      assert a + b == b;
    } else {
      assert (a + b)[1..] == a[1..] + b;
      SerialConcat(Feed(c, a[0]), a[1..], b);
    }
  }

  // ------------------------------------------------------------------ linear and injective

  lemma FeedLinear(c: Reg, d: Reg, x: bool, y: bool)
    ensures Feed(Xor(c, d), x != y) == Xor(Feed(c, x), Feed(d, y))
  {
  }

  lemma {:induction false} SerialLinear(c: Reg, d: Reg, a: seq<bool>, b: seq<bool>)
    requires |a| == |b|
    ensures Serial(Xor(c, d), Xor(a, b)) == Xor(Serial(c, a), Serial(d, b))
    decreases a
  {
    if a != [] {
      FeedLinear(c, d, a[0], b[0]);
      assert Xor(a, b)[1..] == Xor(a[1..], b[1..]);
      SerialLinear(Feed(c, a[0]), Feed(d, b[0]), a[1..], b[1..]);
    }
  }

  lemma FeedInjective(c: Reg, d: Reg, x: bool)
    requires Feed(c, x) == Feed(d, x)
    ensures c == d
  {
    assert Generator()[31];
    assert Feed(c, x)[31] == (c[0] != x) && Feed(d, x)[31] == (d[0] != x);
    forall i | 0 <= i < 32
      ensures c[i] == d[i]
    {
      if i > 0 {
        assert Feed(c, x)[i - 1] == Feed(d, x)[i - 1];
        assert Shifted(c)[i - 1] == c[i] && Shifted(d)[i - 1] == d[i];
      }
    }
  }

  /** For a fixed message the register is a bijection on its 32-bit states. */
  lemma {:induction false} SerialInjective(c: Reg, d: Reg, bits: seq<bool>)
    requires Serial(c, bits) == Serial(d, bits)
    ensures c == d
    decreases bits
  {
    if bits != [] {
      SerialInjective(Feed(c, bits[0]), Feed(d, bits[0]), bits[1..]);
      FeedInjective(c, d, bits[0]);
    }
  }

  // ------------------------------------------------------------------ whole groups of bits

  /** Bits still to come that stand at the front of the register cancel, one by one. */
  lemma {:induction false} CancelFront(bits: seq<bool>)
    requires |bits| <= 32
    ensures Serial(bits + Zeros(32 - |bits|), bits) == Zeros(32)
    decreases bits
  {
    if bits == [] {
      assert bits + Zeros(32) == Zeros(32);
    } else {
      var c: Reg := bits + Zeros(32 - |bits|);
      assert Feed(c, bits[0]) == bits[1..] + Zeros(32 - |bits[1..]|);
      CancelFront(bits[1..]);
    }
  }

  /** Up to 32 message bits may be added to the front of the register first and shifted out afterwards. */
  lemma EnterTogether(c: Reg, bits: seq<bool>)
    requires |bits| <= 32
    ensures Serial(c, bits) == Serial(Xor(c, bits + Zeros(32 - |bits|)), Zeros(|bits|))
  {
    var e: Reg := bits + Zeros(32 - |bits|);
    assert Xor(Xor(c, e), e) == c;
    assert Xor(Zeros(|bits|), bits) == bits;
    SerialLinear(Xor(c, e), e, Zeros(|bits|), bits);
    CancelFront(bits);
    var s := Serial(Xor(c, e), Zeros(|bits|));
    assert Xor(s, Zeros(32)) == s;
  }

  /** Leading zeros leave the register without feedback. */
  lemma {:induction false} DropZeros(n: nat, t: seq<bool>)
    requires n + |t| == 32
    ensures Serial(Zeros(n) + t, Zeros(n)) == t + Zeros(n)
    decreases n
  {
    if n == 0 {
      assert Zeros(0) + t == t + Zeros(0);
    } else {
      var c: Reg := Zeros(n) + t;
      assert Feed(c, false) == Zeros(n - 1) + (t + [false]);
      assert Zeros(n)[1..] == Zeros(n - 1);
      DropZeros(n - 1, t + [false]);
      assert (t + [false]) + Zeros(n - 1) == t + Zeros(n);
    }
  }

  /** Eight steps act on the low byte through feedback and on the rest as a plain shift. */
  lemma SplitByte(c: Reg)
    ensures Serial(c, Zeros(8)) == Xor(c[8..] + Zeros(8), Serial(c[..8] + Zeros(24), Zeros(8)))
  {
    var high: Reg, low: Reg := Zeros(8) + c[8..], c[..8] + Zeros(24);
    assert c == Xor(high, low);
    assert Zeros(8) == Xor(Zeros(8), Zeros(8));
    SerialLinear(high, low, Zeros(8), Zeros(8));
    DropZeros(8, c[8..]);
  }

  /** One byte enters: the low byte of the mixed register is fed through, the rest is shifted. */
  lemma ByteEnters(c: Reg, bits: seq<bool>, mixed: Reg, low: Reg, high: Reg)
    requires |bits| == 8 && mixed == Xor(c, bits + Zeros(24))
    requires low == mixed[..8] + Zeros(24) && high == c[8..] + Zeros(8)
    ensures Serial(c, bits) == Xor(high, Serial(low, Zeros(8)))
  {
    EnterTogether(c, bits);
    SplitByte(mixed);
    assert mixed[8..] == c[8..];
  }

  // ------------------------------------------------------------------ error detection

  /** Reading the register backwards: if at most 32 bits drive it to zero, it held exactly those bits. */
  lemma {:induction false} BackFromZero(c: Reg, bits: seq<bool>)
    requires |bits| <= 32
    requires Serial(c, bits) == Zeros(32)
    ensures c == bits + Zeros(32 - |bits|)
    decreases bits
  {
    if bits != [] {
      var c' := Feed(c, bits[0]);
      BackFromZero(c', bits[1..]);
      assert c' == bits[1..] + Zeros(33 - |bits|);
      assert !c'[31];
      assert Generator()[31];
      assert c[0] == bits[0];
      assert c' == c[1..] + [false];
      assert c == [c[0]] + c'[..31];
    }
  }

  /** Two messages that differ only inside one run of at most 32 bits never have the same checksum. */
  lemma BurstDetected(c: Reg, before: seq<bool>, x: seq<bool>, y: seq<bool>, after: seq<bool>)
    requires |x| == |y| <= 32
    requires x != y
    ensures Serial(c, before + x + after) != Serial(c, before + y + after)
  {
    var s := Serial(c, before);
    SerialConcat(c, before + x, after);
    SerialConcat(c, before, x);
    SerialConcat(c, before + y, after);
    SerialConcat(c, before, y);
    if Serial(c, before + x + after) == Serial(c, before + y + after) {
      SerialInjective(Serial(s, x), Serial(s, y), after);
      SerialLinear(s, s, x, y);
      assert Xor(s, s) == Zeros(32);
      assert Xor(Serial(s, x), Serial(s, y)) == Zeros(32);
      var e := Xor(x, y);
      BackFromZero(Zeros(32), e);
      forall i | 0 <= i < |x|
        ensures x[i] == y[i]
      {
        assert (e + Zeros(32 - |e|))[i] == e[i];
      }
      assert false;
    }
  }
}
