/** What CRC-32 / ISO-HDLC is: the remainder of a long division of polynomials over GF(2), as RFC 1952 and its
    sources define it, with no register and no table. */
module CrcDivision {
  import opened Words
  import Crc32

  /** The generator x^32 + x^26 + x^23 + x^22 + x^16 + x^12 + x^11 + x^10 + x^8 + x^7 + x^5 + x^4 + x^2 + x + 1. */
  const POWERS: set<nat> := {32, 26, 23, 22, 16, 12, 11, 10, 8, 7, 5, 4, 2, 1, 0}

  /** Its coefficients, the highest power first. */
  function Generator(): (g: seq<bool>) {
    seq(33, i requires 0 <= i < 33 => 32 - i in POWERS)
  }

  /** The remainder of a dividend given by its coefficients, the highest power first: while there are more than 32,
      subtract the generator if it goes in, and pass to the next coefficient. */
  function Remainder(d: seq<bool>): (r: Word)
    requires |d| >= 32
    decreases |d|
  {
    if |d| == 32 then d
    else if d[0] then Remainder((Xor(d[..33], Generator()) + d[33..])[1..])
    else Remainder(d[1..])
  }

  /** The bits of a message in the order of the division: each byte from its least significant bit on. */
  function MessageBits(bytes: seq<Byte>): (bits: seq<bool>)
    ensures |bits| == 8 * |bytes|
    decreases |bytes|
  {
    if bytes == [] then [] else bytes[0] + MessageBits(bytes[1..])
  }

  /** The message times x^32, plus `c` times as high a power as fits. */
  function Dividend(c: Word, bits: seq<bool>): (d: seq<bool>)
    ensures |d| == |bits| + 32
  {
    Xor(bits + Zeros(32), c + Zeros(|bits|))
  }

  /** The register after one bit of the message. */
  function NextRegister(c: Word, bit: bool): (r: Word) {
    if c[0] != bit then Xor(ShiftRight(c, 1), Crc32.POLYNOMIAL) else ShiftRight(c, 1)
  }

  lemma GeneratorBits()
    ensures forall i :: 0 <= i < 32 ==> Crc32.POLYNOMIAL[i] == Generator()[i + 1]
  {
    Crc32.PolynomialBits();
  }

  lemma DivideOne(c: Word, bit: bool, bits: seq<bool>)
    ensures Remainder(Dividend(c, [bit] + bits)) == Remainder(Dividend(NextRegister(c, bit), bits))
  {
    var d, next := Dividend(c, [bit] + bits), Dividend(NextRegister(c, bit), bits);
    assert d[0] == (c[0] != bit);
    GeneratorBits();
    if d[0] {
      assert (Xor(d[..33], Generator()) + d[33..])[1..] == next;
    } else {
      assert d[1..] == next;
    }
  }

  lemma StepIsNext(c: Word, bit: bool, bits: seq<bool>)
    requires |bits| < 32
    ensures Crc32.StepBit(Xor(c, Extend([bit] + bits))) == Xor(NextRegister(c, bit), Extend(bits))
  {
    var mixed := Xor(c, Extend([bit] + bits));
    assert mixed[0] == (c[0] != bit);
    ShiftMixed(c, bit, bits);
    XorSwap(ShiftRight(c, 1), Extend(bits), Crc32.POLYNOMIAL);
  }

  lemma ShiftMixed(c: Word, bit: bool, bits: seq<bool>)
    requires |bits| < 32
    ensures ShiftRight(Xor(c, Extend([bit] + bits)), 1) == Xor(ShiftRight(c, 1), Extend(bits))
  {
  }

  lemma XorSwap(a: seq<bool>, b: seq<bool>, m: seq<bool>)
    requires |a| == |b| == |m|
    ensures Xor(Xor(a, b), m) == Xor(Xor(a, m), b)
  {
  }

  /** Mixing some bits in and stepping as often divides by them. */
  lemma {:induction false} DivideSome(c: Word, some: seq<bool>, bits: seq<bool>)
    requires |some| <= 32
    ensures Remainder(Dividend(c, some + bits)) ==
            Remainder(Dividend(Crc32.StepBits(Xor(c, Extend(some)), |some|), bits))
    decreases |some|
  {
    if some == [] {
      assert some + bits == bits && Xor(c, Extend(some)) == c;
    } else {
      var bit, more := some[0], some[1..];
      assert some == [bit] + more && some + bits == [bit] + (more + bits);
      DivideOne(c, bit, more + bits);
      StepIsNext(c, bit, more);
      DivideSome(NextRegister(c, bit), more, bits);
    }
  }

  lemma {:induction false} FoldIsRemainder(c: Word, bytes: seq<Byte>)
    ensures Crc32.Fold(c, bytes) == Remainder(Dividend(c, MessageBits(bytes)))
    decreases |bytes|
  {
    if bytes == [] {
      assert Dividend(c, []) == c;
    } else {
      DivideSome(c, bytes[0], MessageBits(bytes[1..]));
      FoldIsRemainder(Crc32.Absorb(c, bytes[0]), bytes[1..]);
    }
  }

  /** The first 32 coefficients complemented. */
  function FlipFirst32(d: seq<bool>): (f: seq<bool>)
    requires |d| >= 32
  {
    Not(d[..32]) + d[32..]
  }

  /** The CRC of a message, from its least significant bit on: append 32 zeros to its bits, complement the first
      32, divide by the generator, and complement the remainder. */
  lemma CrcIsRemainder(bytes: seq<Byte>)
    ensures Crc32.Crc(bytes) == Not(Remainder(FlipFirst32(MessageBits(bytes) + Zeros(32))))
  {
    FoldIsRemainder(Crc32.INITIAL, bytes);
    assert Dividend(Crc32.INITIAL, MessageBits(bytes)) == FlipFirst32(MessageBits(bytes) + Zeros(32));
  }
}
