/** CRC-32 / ISO-HDLC as `ticket.rs` computes it, and what it detects.

    The bit step is linear over GF(2) and injective.  Everything else (detection of bursts,
    agreement with the table-driven form of section 8 of RFC 1952) follows from those two facts. */
module Crc32 {
  import opened Words

  /** 0xEDB88320 */
  const POLYNOMIAL: Word := FromHex([0x0, 0x2, 0x3, 0x8, 0x8, 0xB, 0xD, 0xE])
  const INITIAL: Word := Ones(32)

  /** One turn of the inner loop: shift right, and fold the polynomial in when a 1 falls out. */
  function StepBit(c: Word): Word {
    if c[0] then Xor(ShiftRight(c, 1), POLYNOMIAL) else ShiftRight(c, 1)
  }

  function StepBits(c: Word, n: nat): Word
    decreases n
  {
    if n == 0 then c else StepBits(StepBit(c), n - 1)
  }

  /** One turn of the outer loop: mix a byte in, then as many bit steps as it has bits. */
  function Absorb(c: Word, b: Byte): Word {
    StepBits(Xor(c, Extend(b)), |b|)
  }

  function Fold(c: Word, bytes: seq<Byte>): Word
    decreases |bytes|
  {
    if bytes == [] then c else Fold(Absorb(c, bytes[0]), bytes[1..])
  }

  function Crc(bytes: seq<Byte>): Word {
    Not(Fold(INITIAL, bytes))
  }

  lemma FoldNext(c: Word, bytes: seq<Byte>, i: nat)
    requires i < |bytes|
    ensures Fold(c, bytes[i..]) == Fold(Absorb(c, bytes[i]), bytes[i + 1..])
  {
    assert bytes[i..][0] == bytes[i] && bytes[i..][1..] == bytes[i + 1..];
  }

  /** The bit step as the source writes it, without a branch on the bit. */
  function MaskedStep(c: Word): (r: Word)
    ensures r == StepBit(c)
  {
    var mask := if c[0] then Ones(32) else Zeros(32);
    Xor(ShiftRight(c, 1), And(POLYNOMIAL, mask))
  }

  /** The inner loop. */
  method AbsorbByte(c: Word, b: Byte) returns (crc: Word)
    ensures crc == Absorb(c, b)
  {
    crc := Xor(c, Extend(b));
    var n := 0;
    while n < |b|
      invariant 0 <= n <= |b|
      invariant StepBits(crc, |b| - n) == Absorb(c, b)
    {
      crc := MaskedStep(crc);
      n := n + 1;
    }
  }

  /** The outer loop. */
  method Crc32IsoHdlc(bytes: seq<Byte>) returns (r: Word)
    ensures r == Crc(bytes)
  {
    var crc: Word := INITIAL;
    var i := 0;
    assert bytes[0..] == bytes;
    while i < |bytes|
      invariant 0 <= i <= |bytes|
      invariant Fold(crc, bytes[i..]) == Fold(INITIAL, bytes)
    {
      FoldNext(crc, bytes, i);
      crc := AbsorbByte(crc, bytes[i]);
      i := i + 1;
    }
    r := Not(crc);
  }

  // ----- linearity and injectivity

  /** The positions of the 1s in the polynomial. */
  ghost predicate Tap(i: int) {
    i == 5 || i == 8 || i == 9 || i == 15 || i == 19 || i == 20 || i == 21
    || i == 23 || i == 24 || i == 26 || i == 27 || i == 29 || i == 30 || i == 31
  }

  lemma PolynomialBits()
    ensures forall i :: 0 <= i < 32 ==> POLYNOMIAL[i] == Tap(i)
  {
    assert forall i :: 0 <= i < 32 ==> i == i / 4 * 4 + i % 4;
  }

  lemma StepBitLinear(a: Word, b: Word)
    ensures StepBit(Xor(a, b)) == Xor(StepBit(a), StepBit(b))
  {
  }

  lemma {:induction false} StepBitsLinear(a: Word, b: Word, n: nat)
    ensures StepBits(Xor(a, b), n) == Xor(StepBits(a, n), StepBits(b, n))
    decreases n
  {
    if n > 0 {
      StepBitLinear(a, b);
      StepBitsLinear(StepBit(a), StepBit(b), n - 1);
    }
  }

  /** The polynomial has its top bit set, so the bit that fell out can be read off the result. */
  lemma StepBitInjective(a: Word, b: Word)
    requires StepBit(a) == StepBit(b)
    ensures a == b
  {
    assert StepBit(a)[31] == a[0] && StepBit(b)[31] == b[0] by { PolynomialBits(); }
    forall i | 0 < i < 32
      ensures a[i] == b[i]
    {
      assert StepBit(a)[i - 1] == (a[i] != (a[0] && POLYNOMIAL[i - 1]));
      assert StepBit(b)[i - 1] == (b[i] != (b[0] && POLYNOMIAL[i - 1]));
    }
    assert a == b;
  }

  lemma {:induction false} StepBitsInjective(a: Word, b: Word, n: nat)
    requires StepBits(a, n) == StepBits(b, n)
    ensures a == b
    decreases n
  {
    if n > 0 {
      StepBitsInjective(StepBit(a), StepBit(b), n - 1);
      StepBitInjective(a, b);
    }
  }

  /** Two registers that differ stay different over any common input. */
  lemma {:induction false} FoldInjective(a: Word, b: Word, bytes: seq<Byte>)
    requires Fold(a, bytes) == Fold(b, bytes)
    ensures a == b
    decreases |bytes|
  {
    if bytes != [] {
      var m := Extend(bytes[0]);
      FoldInjective(Absorb(a, bytes[0]), Absorb(b, bytes[0]), bytes[1..]);
      StepBitsInjective(Xor(a, m), Xor(b, m), |bytes[0]|);
      XorCancels(a, b, m);
    }
  }

  lemma XorCancels(a: seq<bool>, b: seq<bool>, m: seq<bool>)
    requires |a| == |b| == |m| && Xor(a, m) == Xor(b, m)
    ensures a == b
  {
    forall i | 0 <= i < |a|
      ensures a[i] == b[i]
    {
      assert Xor(a, m)[i] == Xor(b, m)[i];
    }
    assert a == b;
  }

  lemma {:induction false} FoldConcat(c: Word, s: seq<Byte>, t: seq<Byte>)
    ensures Fold(c, s + t) == Fold(Fold(c, s), t)
    decreases |s|
  {
    if s == [] {
      assert s + t == t;
    } else {
      assert (s + t)[0] == s[0] && (s + t)[1..] == s[1..] + t;
      FoldConcat(Absorb(c, s[0]), s[1..], t);
    }
  }

  // ----- bursts

  /** The difference of two equally long strings of at most four bytes, in the order in which
      the register reads their bits. */
  ghost function Difference(u: seq<Byte>, v: seq<Byte>): (d: seq<bool>)
    requires |u| == |v|
    ensures |d| == 8 * |u|
    decreases |u|
  {
    if u == [] then [] else Xor(u[0], v[0]) + Difference(u[1..], v[1..])
  }

  /** A register whose top `n` bits are clear came, `n` bit steps ago, from its own bits shifted up. */
  lemma {:induction false} StepBack(z: Word, r: Word, n: nat)
    requires n <= 32 && StepBits(z, n) == r
    requires forall i :: 32 - n <= i < 32 ==> !r[i]
    ensures z == Zeros(n) + r[..32 - n]
    decreases n
  {
    if n > 0 {
      StepBack(StepBit(z), r, n - 1);
      var y := StepBit(z);
      assert y == Zeros(n - 1) + r[..33 - n];
      assert !y[31] && y[31] == z[0] by { PolynomialBits(); }
      assert forall i :: 0 < i < 32 ==> z[i] == y[i - 1];
      assert z == Zeros(n) + r[..32 - n];
    }
  }

  /** Over at most four bytes the register forgets nothing: if two registers meet after reading
      `u` and `v`, they differed exactly by the difference of `u` and `v`. */
  lemma {:induction false} RegistersMeet(a: Word, b: Word, u: seq<Byte>, v: seq<Byte>)
    requires |u| == |v| <= 4
    requires Fold(a, u) == Fold(b, v)
    ensures Xor(a, b) == Extend(Difference(u, v))
    decreases |u|
  {
    if u != [] {
      var m, n := Extend(u[0]), Extend(v[0]);
      var rest := Difference(u[1..], v[1..]);
      RegistersMeet(Absorb(a, u[0]), Absorb(b, v[0]), u[1..], v[1..]);
      var z := Xor(Xor(a, m), Xor(b, n));
      StepBitsLinear(Xor(a, m), Xor(b, n), |u[0]|);
      StepBack(z, Extend(rest), |u[0]|);
      Unmix(a, b, u[0], v[0], rest);
    }
  }

  lemma Unmix(a: Word, b: Word, x: Byte, y: Byte, rest: seq<bool>)
    requires |rest| <= 24
    requires Xor(Xor(a, Extend(x)), Xor(b, Extend(y))) == Zeros(8) + Extend(rest)[..24]
    ensures Xor(a, b) == Extend(Xor(x, y) + rest)
  {
    var z := Xor(Xor(a, Extend(x)), Xor(b, Extend(y)));
    forall i | 0 <= i < 32
      ensures Xor(a, b)[i] == Extend(Xor(x, y) + rest)[i]
    {
      assert z[i] == ((a[i] != Extend(x)[i]) != (b[i] != Extend(y)[i]));
    }
  }

  lemma {:induction false} DifferenceZero(u: seq<Byte>, v: seq<Byte>)
    requires |u| == |v|
    requires forall i :: 0 <= i < 8 * |u| ==> !Difference(u, v)[i]
    ensures u == v
    decreases |u|
  {
    if u != [] {
      var d, rest := Xor(u[0], v[0]), Difference(u[1..], v[1..]);
      assert forall i :: 0 <= i < 8 ==> d[i] == Difference(u, v)[i];
      assert forall i :: 0 <= i < |rest| ==> rest[i] == Difference(u, v)[i + 8];
      DifferenceZero(u[1..], v[1..]);
      assert u[0] == v[0] by {
        assert forall i :: 0 <= i < 8 ==> d[i] == (u[0][i] != v[0][i]);
      }
      assert u == [u[0]] + u[1..] && v == [v[0]] + v[1..];
    }
  }

  /** Every change confined to four consecutive bytes changes the CRC, wherever it falls. */
  lemma BurstDetected(prefix: seq<Byte>, u: seq<Byte>, v: seq<Byte>, suffix: seq<Byte>)
    requires |u| == |v| <= 4 && u != v
    ensures Crc(prefix + u + suffix) != Crc(prefix + v + suffix)
  {
    if Crc(prefix + u + suffix) == Crc(prefix + v + suffix) {
      var c := Fold(INITIAL, prefix);
      FoldThrough(INITIAL, prefix, u, suffix);
      FoldThrough(INITIAL, prefix, v, suffix);
      NotInjective(Fold(Fold(c, u), suffix), Fold(Fold(c, v), suffix));
      FoldInjective(Fold(c, u), Fold(c, v), suffix);
      RegistersMeet(c, c, u, v);
      NoDifference(c, u, v);
    }
  }

  lemma FoldThrough(c: Word, s: seq<Byte>, t: seq<Byte>, r: seq<Byte>)
    ensures Fold(c, s + t + r) == Fold(Fold(Fold(c, s), t), r)
  {
    FoldConcat(c, s + t, r);
    FoldConcat(c, s, t);
  }

  lemma NoDifference(c: Word, u: seq<Byte>, v: seq<Byte>)
    requires |u| == |v| <= 4 && Xor(c, c) == Extend(Difference(u, v))
    ensures u == v
  {
    forall i | 0 <= i < 8 * |u|
      ensures !Difference(u, v)[i]
    {
      assert Extend(Difference(u, v))[i] == Xor(c, c)[i];
    }
    DifferenceZero(u, v);
  }

  lemma NotInjective(a: Word, b: Word)
    requires Not(a) == Not(b)
    ensures a == b
  {
    forall i | 0 <= i < 32
      ensures a[i] == b[i]
    {
      assert Not(a)[i] == Not(b)[i];
    }
    assert a == b;
  }

  /** A change in the last byte alone moves the CRC in its low 24 bits, so no change to the top
      byte of a stored CRC can hide it. */
  lemma LastByteMovesLowBits(prefix: seq<Byte>, x: Byte, y: Byte)
    requires x != y
    ensures Crc(prefix + [x])[..24] != Crc(prefix + [y])[..24]
  {
    var c := Fold(INITIAL, prefix);
    var p, q := Absorb(c, x), Absorb(c, y);
    AppendByte(c, prefix, x);
    AppendByte(c, prefix, y);
    if Not(p)[..24] == Not(q)[..24] {
      SameLowBits(p, q);
      StepBitsLinear(Xor(c, Extend(x)), Xor(c, Extend(y)), |x|);
      XorExtended(c, x, y);
      ByteReachesLowBits(Xor(x, y));
      forall i | 0 <= i < 8
        ensures x[i] == y[i]
      {
        assert !Xor(x, y)[i];
      }
    }
  }

  lemma XorExtended(c: Word, x: Byte, y: Byte)
    ensures Xor(Xor(c, Extend(x)), Xor(c, Extend(y))) == Extend(Xor(x, y))
  {
  }

  lemma AppendByte(c: Word, prefix: seq<Byte>, x: Byte)
    requires c == Fold(INITIAL, prefix)
    ensures Crc(prefix + [x]) == Not(Absorb(c, x))
  {
    FoldConcat(INITIAL, prefix, [x]);
    assert [x][1..] == [];
  }

  lemma SameLowBits(p: Word, q: Word)
    requires Not(p)[..24] == Not(q)[..24]
    ensures forall i :: 0 <= i < 24 ==> !Xor(p, q)[i]
  {
    forall i | 0 <= i < 24
      ensures !Xor(p, q)[i]
    {
      assert Not(p)[..24][i] == Not(q)[..24][i];
    }
  }

  /** The register over eight bit steps. */
  ghost predicate IsRun(r: seq<Word>) {
    |r| == 9 && forall k :: 0 < k < 9 ==> r[k] == StepBit(r[k - 1])
  }

  lemma {:induction false} StepLast(c: Word, n: nat)
    ensures StepBits(c, n + 1) == StepBit(StepBits(c, n))
    decreases n
  {
    if n > 0 {
      StepLast(StepBit(c), n - 1);
    }
  }

  lemma RunFrom(d: Byte) returns (r: seq<Word>)
    ensures IsRun(r) && r[0] == Extend(d) && r[8] == StepBits(Extend(d), |d|)
  {
    r := seq(9, k requires 0 <= k < 9 => StepBits(Extend(d), k));
    forall k | 0 < k < 9
      ensures r[k] == StepBit(r[k - 1])
    {
      StepLast(Extend(d), k - 1);
    }
  }

  lemma Tapped(r: seq<Word>, n: nat, i: nat)
    requires IsRun(r) && n < 8 && i < 31
    ensures r[n + 1][i] == (r[n][i + 1] != (r[n][0] && Tap(i)))
  {
    PolynomialBits();
    assert r[n + 1] == StepBit(r[n]);
  }

  /** Between taps, bits only move. */
  lemma {:induction false} Slide(r: seq<Word>, n: nat, i: nat, k: nat)
    requires IsRun(r) && n + k <= 8 && i + k < 32 && forall j :: i <= j < i + k ==> !Tap(j)
    ensures r[n + k][i] == r[n][i + k]
    decreases k
  {
    if k > 0 {
      Tapped(r, n + k - 1, i);
      assert !Tap(i);
      Slide(r, n, i + 1, k - 1);
    }
  }

  /** Reading the low bits of the stepped register back gives the bits that fell out, one by one. */
  lemma ByteReachesLowBits(d: Byte)
    requires forall i :: 0 <= i < 24 ==> !StepBits(Extend(d), |d|)[i]
    ensures forall i :: 0 <= i < 8 ==> !d[i]
  {
    var r := RunFrom(d);
    FallenEarly(r);
    FallenLate(r);
    OnlyMoved(r);
    assert forall i :: 0 <= i < 8 ==> r[0][i] == d[i];
  }

  lemma OnlyMoved(r: seq<Word>)
    requires IsRun(r) && !r[0][0] && !r[1][0] && !r[2][0] && !r[3][0]
    requires !r[4][0] && !r[5][0] && !r[6][0] && !r[7][0]
    ensures forall i :: 0 <= i < 8 ==> !r[0][i]
  {
    Slide(r, 0, 0, 1);
    Slide(r, 0, 0, 2);
    Slide(r, 0, 0, 3);
    Slide(r, 0, 0, 4);
    Slide(r, 0, 0, 5);
    Slide(r, 1, 0, 5);
    Tapped(r, 0, 5);
    Slide(r, 2, 0, 5);
    Tapped(r, 1, 5);
    Slide(r, 0, 6, 1);
  }

  /** A run from a byte to a register whose low bits are clear. */
  ghost predicate LowBitsClear(r: seq<Word>) {
    IsRun(r) && (forall i :: 8 <= i < 32 ==> !r[0][i]) && forall i :: 0 <= i < 24 ==> !r[8][i]
  }

  /** Read off bits 0, 11, 1 and 12. */
  lemma FallenEarly(r: seq<Word>)
    requires LowBitsClear(r)
    ensures !r[0][0] && !r[2][0] && !r[3][0] && !r[4][0]
  {
    assert !r[2][0] by { Slide(r, 3, 0, 5); Tapped(r, 2, 5); Slide(r, 0, 6, 2); }
    assert !r[3][0] by { Slide(r, 4, 11, 4); Tapped(r, 3, 15); Slide(r, 0, 16, 3); }
    assert !r[0][0] by { Slide(r, 4, 1, 4); Tapped(r, 3, 5); Slide(r, 1, 6, 2); Tapped(r, 0, 8); }
    assert !r[4][0] by { Slide(r, 5, 12, 3); Tapped(r, 4, 15); Slide(r, 1, 16, 3); Tapped(r, 0, 19); }
  }

  /** Read off bits 4, 7, 3 and 5. */
  lemma FallenLate(r: seq<Word>)
    requires LowBitsClear(r)
    requires !r[0][0] && !r[2][0] && !r[3][0] && !r[4][0]
    ensures !r[1][0] && !r[5][0] && !r[6][0] && !r[7][0]
  {
    assert !r[6][0] by {
      Slide(r, 7, 4, 1); Tapped(r, 6, 5); Slide(r, 4, 6, 2); Tapped(r, 3, 8); Tapped(r, 2, 9); Slide(r, 0, 10, 2);
    }
    assert !r[5][0] by { Slide(r, 7, 7, 1); Tapped(r, 6, 8); Tapped(r, 5, 9); Slide(r, 0, 10, 5); }
    assert !r[1][0] by {
      Slide(r, 6, 3, 2); Tapped(r, 5, 5); Slide(r, 3, 6, 2); Tapped(r, 2, 8); Tapped(r, 1, 9); Slide(r, 0, 10, 1);
    }
    assert !r[7][0] by {
      Tapped(r, 7, 5); Slide(r, 5, 6, 2); Tapped(r, 4, 8); Tapped(r, 3, 9); Slide(r, 0, 10, 3);
    }
  }

  // ----- the table-driven form

  /** The entry for `n` of the table of section 8 of RFC 1952. */
  function TableEntry(n: Byte): Word {
    StepBits(Extend(n), |n|)
  }

  /** The bitwise step equals the table lookup that the standard gives. */
  lemma TableForm(c: Word, b: Byte)
    ensures Absorb(c, b) == Xor(TableEntry(Xor(c, Extend(b))[..8]), ShiftRight(c, 8))
  {
    var x := Xor(c, Extend(b));
    var low, high := Extend(x[..8]), Zeros(8) + x[8..];
    assert x == Xor(low, high);
    StepBitsLinear(low, high, |b|);
    StepOverZeros(high, |b|);
    assert ShiftRight(high, 8) == ShiftRight(c, 8);
  }

  lemma {:induction false} StepOverZeros(z: Word, n: nat)
    requires n <= 32 && z[..n] == Zeros(n)
    ensures StepBits(z, n) == ShiftRight(z, n)
    decreases n
  {
    if n > 0 {
      var y := StepBit(z);
      assert z[..n][0] == z[0];
      assert y[..n - 1] == Zeros(n - 1) by {
        assert forall i :: 0 <= i < n - 1 ==> y[i] == z[..n][i + 1];
      }
      StepOverZeros(y, n - 1);
    }
  }
}
