/** Unpadded base32 with the upper-case alphabet: section 6 of RFC 4648, with non-zero trailing
    bits rejected as section 3.5 allows.  A string of bytes is read as one string of bits, most
    significant bit of each byte first, and cut into groups of five. */
module Base32 {
  import opened Words
  import opened Wrappers

  const ALPHABET: string := "ABCDEFGHIJKLMNOPQRSTUVWXYZ234567"

  function Bits(bytes: seq<Byte>): (bits: seq<bool>)
    ensures |bits| == 8 * |bytes|
  {
    seq(8 * |bytes|, p requires 0 <= p < 8 * |bytes| => bytes[p / 8][7 - p % 8])
  }

  function BytesOf(bits: seq<bool>): (bytes: seq<Byte>)
    requires |bits| % 8 == 0
  {
    seq(|bits| / 8, j requires 0 <= j < |bits| / 8 => ByteAt(bits, j))
  }

  function ByteAt(bits: seq<bool>, j: nat): (b: Byte)
    requires 8 * j + 8 <= |bits|
  {
    seq(8, i requires 0 <= i < 8 => bits[8 * j + 7 - i])
  }

  /** The number written by the `k`-th group of five bits. */
  function GroupAt(bits: seq<bool>, k: nat): (v: nat)
    requires 5 * k + 5 <= |bits|
    ensures v < 32
  {
    Weight(bits[5 * k], 16) + Weight(bits[5 * k + 1], 8) + Weight(bits[5 * k + 2], 4)
    + Weight(bits[5 * k + 3], 2) + Weight(bits[5 * k + 4], 1)
  }

  function Weight(bit: bool, w: nat): nat {
    if bit then w else 0
  }

  /** Bit `i` of a five-bit number, most significant first. */
  function GroupBit(v: nat, i: nat): bool
    requires i < 5
  {
    v / [16, 8, 4, 2, 1][i] % 2 == 1
  }

  function PadLength(n: nat): (k: nat) {
    (5 - n % 5) % 5
  }

  function Padded(bits: seq<bool>): (p: seq<bool>)
    ensures |p| % 5 == 0
  {
    bits + Zeros(PadLength(|bits|))
  }

  function Symbols(bits: seq<bool>): (s: string)
    requires |bits| % 5 == 0
  {
    seq(|bits| / 5, k requires 0 <= k < |bits| / 5 => ALPHABET[GroupAt(bits, k)])
  }

  function Encode(bytes: seq<Byte>): (s: string) {
    Symbols(Padded(Bits(bytes)))
  }

  function ValueOf(c: char): (v: Option<nat>)
    ensures v.Some? ==> v.value < 32
  {
    if 'A' <= c <= 'Z' then Some(c as int - 'A' as int)
    else if '2' <= c <= '7' then Some(c as int - '2' as int + 26)
    else None
  }

  predicate InAlphabet(s: string) {
    forall k :: 0 <= k < |s| ==> ValueOf(s[k]).Some?
  }

  function BitsOfSymbols(s: string): (bits: seq<bool>)
    requires InAlphabet(s)
    ensures |bits| == 5 * |s|
  {
    seq(5 * |s|, p requires 0 <= p < 5 * |s| => GroupBit(ValueOf(s[p / 5]).value, p % 5))
  }

  /** The bits beyond the last whole byte. */
  function TailLength(n: nat): (tail: nat)
    ensures tail == n % 8 <= n && (n - tail) % 8 == 0
  {
    n % 8
  }

  /** `None` stands for every decoding error: a bad length, a bad symbol, a set trailing bit. */
  function Decode(s: string): (r: Option<seq<Byte>>) {
    var tail := TailLength(5 * |s|);
    if tail >= 5 || !InAlphabet(s) then None
    else
      var bits := BitsOfSymbols(s);
      if bits[|bits| - tail..] != Zeros(tail) then None
      else Some(BytesOf(bits[..|bits| - tail]))
  }

  // ----- both directions of the round trip

  lemma GroupRoundTrip(bits: seq<bool>, k: nat, i: nat)
    requires 5 * k + 5 <= |bits| && i < 5
    ensures GroupBit(GroupAt(bits, k), i) == bits[5 * k + i]
  {
  }

  lemma SymbolsInverse(bits: seq<bool>)
    requires |bits| % 5 == 0
    ensures InAlphabet(Symbols(bits)) && BitsOfSymbols(Symbols(bits)) == bits
  {
    var s := Symbols(bits);
    forall k | 0 <= k < |s|
      ensures ValueOf(s[k]) == Some(GroupAt(bits, k))
    {
      AlphabetValue(GroupAt(bits, k));
    }
    forall p | 0 <= p < |bits|
      ensures BitsOfSymbols(s)[p] == bits[p]
    {
      GroupRoundTrip(bits, p / 5, p % 5);
    }
    assert BitsOfSymbols(s) == bits;
  }

  lemma AlphabetValue(v: nat)
    requires v < 32
    ensures ValueOf(ALPHABET[v]) == Some(v)
  {
  }

  lemma ValueAlphabet(c: char)
    requires ValueOf(c).Some?
    ensures ALPHABET[ValueOf(c).value] == c
  {
    if c == '2' || c == '3' || c == '4' || c == '5' || c == '6' || c == '7' {
    } else if c < 'K' {
    } else if c < 'S' {
    } else {
    }
  }

  lemma BytesInverse(bytes: seq<Byte>, bits: seq<bool>)
    requires |bits| % 8 == 0
    ensures BytesOf(Bits(bytes)) == bytes
    ensures Bits(BytesOf(bits)) == bits
  {
    forall j | 0 <= j < |bytes|
      ensures BytesOf(Bits(bytes))[j] == bytes[j]
    {
      forall i | 0 <= i < 8
        ensures ByteAt(Bits(bytes), j)[i] == bytes[j][i]
      {
        assert Bits(bytes)[8 * j + 7 - i] == bytes[(8 * j + 7 - i) / 8][7 - (8 * j + 7 - i) % 8];
      }
      assert ByteAt(Bits(bytes), j) == bytes[j];
    }
    assert BytesOf(Bits(bytes)) == bytes;
    assert Bits(BytesOf(bits)) == bits;
  }

  /** Of the padding lengths, only the one the encoder uses leaves less than a symbol over. */
  lemma TailIsPadding(m: nat, tail: nat, symbols: nat)
    requires 5 * symbols == 8 * m + tail && tail < 5
    ensures tail == 5 * symbols % 8 == PadLength(8 * m)
  {
    var q, r := m / 5, m % 5;
    var x := symbols - 8 * q;
    assert m == 5 * q + r && 5 * x == 8 * r + tail;
    PadByRemainder(m, q, r);
    FiveDivides(x, r, tail);
    RemainderBy8(m, tail);
  }

  lemma RemainderBy8(m: nat, tail: nat)
    requires tail < 8
    ensures (8 * m + tail) % 8 == tail
  {
  }

  lemma RemainderBy5(q: nat, s: nat)
    requires s < 5
    ensures (5 * q + s) % 5 == s
  {
  }

  lemma PadByRemainder(m: nat, q: nat, r: nat)
    requires m == 5 * q + r && r < 5
    ensures PadLength(8 * m) == [0, 2, 4, 1, 3][r]
  {
    if r == 0 {
      RemainderBy5(8 * q, 0);
    } else if r == 1 {
      RemainderBy5(8 * q + 1, 3);
    } else if r == 2 {
      RemainderBy5(8 * q + 3, 1);
    } else if r == 3 {
      RemainderBy5(8 * q + 4, 4);
    } else {
      RemainderBy5(8 * q + 6, 2);
    }
  }

  lemma FiveDivides(x: int, r: nat, tail: nat)
    requires 5 * x == 8 * r + tail && r < 5 && tail < 5
    ensures tail == [0, 2, 4, 1, 3][r]
  {
    if r == 0 {
    } else if r == 1 {
    } else if r == 2 {
    } else if r == 3 {
    } else {
    }
  }

  lemma PaddedLength(m: nat)
    ensures (8 * m + PadLength(8 * m)) % 5 == 0 && PadLength(8 * m) < 5
  {
  }

  lemma DecodePadded(s: string, bits: seq<bool>, tail: nat)
    requires |bits| % 8 == 0 && InAlphabet(s) && BitsOfSymbols(s) == bits + Zeros(tail)
    requires tail == 5 * |s| % 8 && tail < 5
    ensures Decode(s) == Some(BytesOf(bits))
  {
    var all := BitsOfSymbols(s);
    assert all[|bits|..] == Zeros(tail) && all[..|bits|] == bits;
  }

  lemma DecodeSymbols(bits: seq<bool>, tail: nat)
    requires |bits| % 8 == 0 && tail == PadLength(|bits|) < 5 && (|bits| + tail) % 5 == 0
    ensures Decode(Symbols(bits + Zeros(tail))) == Some(BytesOf(bits))
  {
    var padded := bits + Zeros(tail);
    var s := Symbols(padded);
    assert 5 * |s| == |padded|;
    TailIsPadding(|bits| / 8, tail, |s|);
    SymbolsInverse(padded);
    DecodePadded(s, bits, tail);
  }

  /** Decoding undoes encoding. */
  lemma DecodeEncode(bytes: seq<Byte>)
    ensures Decode(Encode(bytes)) == Some(bytes)
  {
    PaddedLength(|bytes|);
    DecodeSymbols(Bits(bytes), PadLength(8 * |bytes|));
    BytesInverse(bytes, []);
  }

  /** A string that decodes is the only one that decodes to those bytes. */
  lemma EncodeDecode(s: string)
    requires Decode(s).Some?
    ensures Encode(Decode(s).value) == s
  {
    var bits := BitsOfSymbols(s);
    var tail := 5 * |s| % 8;
    var kept := bits[..|bits| - tail];
    BytesInverse([], kept);
    TailIsPadding(|kept| / 8, tail, |s|);
    assert Padded(kept) == bits;
    BitsInverse(s);
  }

  lemma BitsInverse(s: string)
    requires InAlphabet(s)
    ensures Symbols(BitsOfSymbols(s)) == s
  {
    forall k | 0 <= k < |s|
      ensures Symbols(BitsOfSymbols(s))[k] == s[k]
    {
      GroupOfSymbol(s, k);
      ValueAlphabet(s[k]);
    }
    assert Symbols(BitsOfSymbols(s)) == s;
  }

  lemma BitOfSymbol(s: string, k: nat, i: nat)
    requires InAlphabet(s) && k < |s| && i < 5
    ensures BitsOfSymbols(s)[5 * k + i] == GroupBit(ValueOf(s[k]).value, i)
  {
    assert (5 * k + i) / 5 == k && (5 * k + i) % 5 == i;
  }

  lemma GroupOfSymbol(s: string, k: nat)
    requires InAlphabet(s) && k < |s|
    ensures GroupAt(BitsOfSymbols(s), k) == ValueOf(s[k]).value
  {
    BitOfSymbol(s, k, 0);
    BitOfSymbol(s, k, 1);
    BitOfSymbol(s, k, 2);
    BitOfSymbol(s, k, 3);
    BitOfSymbol(s, k, 4);
    GroupValue(ValueOf(s[k]).value);
  }

  lemma GroupValue(v: nat)
    requires v < 32
    ensures v == Weight(GroupBit(v, 0), 16) + Weight(GroupBit(v, 1), 8) + Weight(GroupBit(v, 2), 4)
               + Weight(GroupBit(v, 3), 2) + Weight(GroupBit(v, 4), 1)
  {
  }

  /** Changing one symbol touches only the two bytes its five bits can fall into. */
  lemma LocalChange(s: string, t: string, k: nat, j: nat)
    requires |s| == |t| && k < |s| && forall m :: 0 <= m < |s| && m != k ==> s[m] == t[m]
    requires Decode(s).Some? && Decode(t).Some?
    requires j < |Decode(s).value| && j != 5 * k / 8 && j != (5 * k + 4) / 8
    ensures |Decode(s).value| == |Decode(t).value| && Decode(s).value[j] == Decode(t).value[j]
  {
    var a, b := BitsOfSymbols(s), BitsOfSymbols(t);
    var n := |a| - 5 * |s| % 8;
    forall i | 0 <= i < 8
      ensures ByteAt(a[..n], j)[i] == ByteAt(b[..n], j)[i]
    {
      var p := 8 * j + 7 - i;
      assert p / 5 != k;
      assert a[p] == b[p];
    }
    assert ByteAt(a[..n], j) == ByteAt(b[..n], j);
  }
}
