/** Room codes as numbers: a code writes the ticket and its CRC, read as one big-endian number, in base 32. */
module RoomNumber {
  import opened Strings
  import opened Words
  import Base32
  import Crc32
  import RoomCode

  function Bit(b: bool): (v: nat) {
    if b then 1 else 0
  }

  /** `n` times 2^`j`. */
  function Shifted(n: nat, j: nat): (m: nat)
    decreases j
  {
    if j == 0 then n else 2 * Shifted(n, j - 1)
  }

  /** The number that a word writes from bit `k` on, its least significant bit first. */
  function Number(w: seq<bool>, k: nat): (n: nat)
    requires k <= |w|
    decreases |w| - k
  {
    if k == |w| then 0 else Bit(w[k]) + 2 * Number(w, k + 1)
  }

  /** The number that the first `k` bytes write, the most significant first. */
  function InBase256(bytes: seq<Byte>, k: nat): (n: nat)
    requires k <= |bytes|
    decreases k
  {
    if k == 0 then 0 else 256 * InBase256(bytes, k - 1) + Number(bytes[k - 1], 0)
  }

  /** The digits of section 6 of RFC 4648, in lower case: 'a' to 'z' for 0 to 25, '2' to '7' for 26 to 31. */
  function Digit32(c: char): (v: nat) {
    if 'a' <= c <= 'z' then c as int - 'a' as int else if '2' <= c <= '7' then 26 + (c as int - '2' as int) else 0
  }

  /** The number that the first `k` characters write, the most significant first. */
  function InBase32(s: string, k: nat): (n: nat)
    requires k <= |s|
    decreases k
  {
    if k == 0 then 0 else 32 * InBase32(s, k - 1) + Digit32(s[k - 1])
  }

  /** The number that the first `k` bits write, the most significant first. */
  function InBinary(bits: seq<bool>, k: nat): (n: nat)
    requires k <= |bits|
    decreases k
  {
    if k == 0 then 0 else 2 * InBinary(bits, k - 1) + Bit(bits[k - 1])
  }

  lemma BinaryNext(bits: seq<bool>, k: nat, m: nat)
    requires m == k + 1 <= |bits|
    ensures InBinary(bits, m) == 2 * InBinary(bits, k) + Bit(bits[k])
  {
  }

  /** Five more bits are one more digit in base 32. */
  lemma FiveMore(bits: seq<bool>, k: nat)
    requires k + 5 <= |bits|
    ensures InBinary(bits, k + 5) == 32 * InBinary(bits, k) + 16 * Bit(bits[k]) + 8 * Bit(bits[k + 1])
                                     + 4 * Bit(bits[k + 2]) + 2 * Bit(bits[k + 3]) + Bit(bits[k + 4])
  {
    BinaryNext(bits, k, k + 1);
    BinaryNext(bits, k + 1, k + 2);
    BinaryNext(bits, k + 2, k + 3);
    BinaryNext(bits, k + 3, k + 4);
    BinaryNext(bits, k + 4, k + 5);
  }

  lemma EightMore(bits: seq<bool>, k: nat)
    requires k + 8 <= |bits|
    ensures InBinary(bits, k + 8) == 256 * InBinary(bits, k) + 128 * Bit(bits[k]) + 64 * Bit(bits[k + 1])
                                     + 32 * Bit(bits[k + 2]) + 16 * Bit(bits[k + 3]) + 8 * Bit(bits[k + 4])
                                     + 4 * Bit(bits[k + 5]) + 2 * Bit(bits[k + 6]) + Bit(bits[k + 7])
  {
    FiveMore(bits, k);
    BinaryNext(bits, k + 5, k + 6);
    BinaryNext(bits, k + 6, k + 7);
    BinaryNext(bits, k + 7, k + 8);
  }

  lemma NumberNext(w: seq<bool>, k: nat, m: nat)
    requires m == k + 1 <= |w|
    ensures Number(w, k) == Bit(w[k]) + 2 * Number(w, m)
  {
  }

  lemma NumberEight(w: seq<bool>, k: nat)
    requires k + 8 <= |w|
    ensures Number(w, k) == Bit(w[k]) + 2 * Bit(w[k + 1]) + 4 * Bit(w[k + 2]) + 8 * Bit(w[k + 3]) + 16 * Bit(w[k + 4])
                            + 32 * Bit(w[k + 5]) + 64 * Bit(w[k + 6]) + 128 * Bit(w[k + 7]) + 256 * Number(w, k + 8)
  {
    NumberNext(w, k, k + 1);
    NumberNext(w, k + 1, k + 2);
    NumberNext(w, k + 2, k + 3);
    NumberNext(w, k + 3, k + 4);
    NumberNext(w, k + 4, k + 5);
    NumberNext(w, k + 5, k + 6);
    NumberNext(w, k + 6, k + 7);
    NumberNext(w, k + 7, k + 8);
  }

  /** The eight bits from `p` on are those of the byte, most significant first. */
  predicate HoldsByte(bits: seq<bool>, p: nat, b: Byte) {
    && p + 8 <= |bits|
    && bits[p] == b[7] && bits[p + 1] == b[6] && bits[p + 2] == b[5] && bits[p + 3] == b[4]
    && bits[p + 4] == b[3] && bits[p + 5] == b[2] && bits[p + 6] == b[1] && bits[p + 7] == b[0]
  }

  lemma BitOfByte(bytes: seq<Byte>, k: nat, i: nat)
    requires k < |bytes| && i < 8
    ensures Base32.Bits(bytes)[8 * k + i] == bytes[k][7 - i]
  {
    assert (8 * k + i) / 8 == k && (8 * k + i) % 8 == i;
  }

  lemma BitsHold(bytes: seq<Byte>, k: nat)
    requires k < |bytes|
    ensures HoldsByte(Base32.Bits(bytes), 8 * k, bytes[k])
  {
    BitOfByte(bytes, k, 0);
    BitOfByte(bytes, k, 1);
    BitOfByte(bytes, k, 2);
    BitOfByte(bytes, k, 3);
    BitOfByte(bytes, k, 4);
    BitOfByte(bytes, k, 5);
    BitOfByte(bytes, k, 6);
    BitOfByte(bytes, k, 7);
  }

  lemma ByteMore(bits: seq<bool>, p: nat, q: nat, b: Byte)
    requires HoldsByte(bits, p, b) && q == p + 8
    ensures InBinary(bits, q) == 256 * InBinary(bits, p) + Number(b, 0)
  {
    EightMore(bits, p);
    NumberEight(b, 0);
  }

  lemma {:induction false} BitsAreBytes(bytes: seq<Byte>, bits: seq<bool>, k: nat, p: nat)
    requires bits == Base32.Bits(bytes) && k <= |bytes| && p == 8 * k
    ensures InBinary(bits, p) == InBase256(bytes, k)
    decreases k
  {
    if k > 0 {
      BitsAreBytes(bytes, bits, k - 1, p - 8);
      BitsHold(bytes, k - 1);
      ByteMore(bits, p - 8, p, bytes[k - 1]);
    }
  }

  lemma DigitOfSymbol(v: nat)
    requires v < 32
    ensures Digit32(LowerChar(Base32.ALPHABET[v])) == v
  {
    Base32.AlphabetValue(v);
  }

  /** Character `k` is the digit of the `k`-th five bits. */
  predicate HoldsDigit(bits: seq<bool>, s: string, k: nat) {
    k < |s| && 5 * k + 5 <= |bits| && Digit32(s[k]) == Base32.GroupAt(bits, k)
  }

  lemma SymbolsHold(bits: seq<bool>, s: string, k: nat)
    requires |bits| % 5 == 0 && s == LowerAscii(Base32.Symbols(bits)) && k < |s|
    ensures HoldsDigit(bits, s, k)
  {
    DigitOfSymbol(Base32.GroupAt(bits, k));
  }

  lemma SymbolMore(bits: seq<bool>, s: string, k: nat, p: nat, q: nat)
    requires HoldsDigit(bits, s, k) && p == 5 * k && q == p + 5
    ensures InBinary(bits, q) == 32 * InBinary(bits, p) + Digit32(s[k])
  {
    FiveMore(bits, p);
  }

  lemma {:induction false} SymbolsAreBits(bits: seq<bool>, s: string, k: nat, p: nat)
    requires |bits| == 5 * |s| && k <= |s| && p == 5 * k && forall i :: 0 <= i < |s| ==> HoldsDigit(bits, s, i)
    ensures InBase32(s, k) == InBinary(bits, p)
    decreases k
  {
    if k > 0 {
      SymbolsAreBits(bits, s, k - 1, p - 5);
      assert HoldsDigit(bits, s, k - 1);
      SymbolMore(bits, s, k - 1, p - 5, p);
    }
  }

  lemma {:induction false} PadShifts(bits: seq<bool>, padded: seq<bool>, j: nat, p: nat)
    requires p == |bits| + j <= |padded| && bits <= padded && forall i :: |bits| <= i < |padded| ==> !padded[i]
    ensures InBinary(padded, p) == Shifted(InBinary(bits, |bits|), j)
    decreases j
  {
    if j == 0 {
      SamePrefix(padded, bits, |bits|);
    } else {
      PadShifts(bits, padded, j - 1, p - 1);
      BinaryNext(padded, p - 1, p);
    }
  }

  lemma {:induction false} SamePrefix(a: seq<bool>, b: seq<bool>, k: nat)
    requires k <= |a| && k <= |b| && forall i :: 0 <= i < k ==> a[i] == b[i]
    ensures InBinary(a, k) == InBinary(b, k)
    decreases k
  {
    if k > 0 {
      SamePrefix(a, b, k - 1);
    }
  }

  lemma PaddedEncoding(bytes: seq<Byte>, bits: seq<bool>, padded: seq<bool>, s: string)
    requires bits == Base32.Bits(bytes) && padded == Base32.Padded(bits) && s == LowerAscii(Base32.Encode(bytes))
    ensures 5 * |s| == |padded| && |bits| <= |padded| < |bits| + 5
    ensures bits <= padded && forall i :: |bits| <= i < |padded| ==> !padded[i]
    ensures forall k :: 0 <= k < |s| ==> HoldsDigit(padded, s, k)
  {
    forall k | 0 <= k < |s|
      ensures HoldsDigit(padded, s, k)
    {
      SymbolsHold(padded, s, k);
    }
  }

  /** The base32 digits write the number that the bytes write, moved up until its bits fill the last digit. */
  lemma EncodeIsNumber(bytes: seq<Byte>, s: string, pad: int)
    requires s == LowerAscii(Base32.Encode(bytes)) && pad == 5 * |s| - 8 * |bytes|
    ensures 0 <= pad < 5 && InBase32(s, |s|) == Shifted(InBase256(bytes, |bytes|), pad)
  {
    var bits := Base32.Bits(bytes);
    var padded := Base32.Padded(bits);
    PaddedEncoding(bytes, bits, padded, s);
    BitsAreBytes(bytes, bits, |bytes|, |bits|);
    PadShifts(bits, padded, pad, |padded|);
    SymbolsAreBits(padded, s, |s|, |padded|);
  }

  lemma ByteOfWord(w: Word, b: Byte, k: nat)
    requires k + 8 <= 32 && b == w[k..k + 8]
    ensures Number(w, k) == Number(b, 0) + 256 * Number(w, k + 8)
  {
    NumberEight(w, k);
    NumberEight(b, 0);
  }

  lemma Base256Four(bytes: seq<Byte>, k: nat, m: nat)
    requires m == k + 4 <= |bytes|
    ensures InBase256(bytes, m) ==
            0x1_0000_0000 * InBase256(bytes, k) + 0x100_0000 * Number(bytes[k], 0) + 0x1_0000 * Number(bytes[k + 1], 0)
            + 0x100 * Number(bytes[k + 2], 0) + Number(bytes[k + 3], 0)
  {
    Base256Next(bytes, k, k + 1);
    Base256Next(bytes, k + 1, k + 2);
    Base256Next(bytes, k + 2, k + 3);
    Base256Next(bytes, k + 3, m);
  }

  lemma NumberOfWord(w: Word)
    ensures var b := BigEndian(w);
      Number(w, 0) == 0x100_0000 * Number(b[0], 0) + 0x1_0000 * Number(b[1], 0) + 0x100 * Number(b[2], 0)
                      + Number(b[3], 0)
  {
    var b := BigEndian(w);
    ByteOfWord(w, b[3], 0);
    ByteOfWord(w, b[2], 8);
    ByteOfWord(w, b[1], 16);
    ByteOfWord(w, b[0], 24);
  }

  /** The four bytes after the ticket write the CRC, the most significant first. */
  lemma BigEndianIsNumber(bytes: seq<Byte>, w: Word, k: nat, m: nat)
    requires m == k + 4 <= |bytes|
    requires forall i :: 0 <= i < 4 ==> bytes[k + i] == BigEndian(w)[i]
    ensures InBase256(bytes, m) == InBase256(bytes, k) * 0x1_0000_0000 + Number(w, 0)
  {
    Base256Four(bytes, k, m);
    NumberOfWord(w);
    assert bytes[k + 0] == BigEndian(w)[0] && bytes[k + 1] == BigEndian(w)[1];
    assert bytes[k + 2] == BigEndian(w)[2] && bytes[k + 3] == BigEndian(w)[3];
  }

  lemma Base256Next(bytes: seq<Byte>, k: nat, m: nat)
    requires m == k + 1 <= |bytes|
    ensures InBase256(bytes, m) == 256 * InBase256(bytes, k) + Number(bytes[k], 0)
  {
  }

  lemma {:induction false} SameBytes(a: seq<Byte>, b: seq<Byte>, k: nat)
    requires k <= |a| && k <= |b| && forall i :: 0 <= i < k ==> a[i] == b[i]
    ensures InBase256(a, k) == InBase256(b, k)
    decreases k
  {
    if k > 0 {
      SameBytes(a, b, k - 1);
    }
  }

  lemma PayloadIsNumber(ticket: seq<Byte>, crc: Word, payload: seq<Byte>, n: nat, m: nat)
    requires payload == ticket + BigEndian(crc) && n == |ticket| && m == |payload|
    ensures InBase256(payload, m) == InBase256(ticket, n) * 0x1_0000_0000 + Number(crc, 0)
  {
    SameBytes(payload, ticket, n);
    BigEndianIsNumber(payload, crc, n, m);
  }

  lemma CodeParts(ticket: seq<Byte>, payload: seq<Byte>, code: string, digits: string)
    requires code == RoomCode.Encode(ticket) && digits == code[4..] && payload == RoomCode.Payload(ticket)
    ensures code == "cc1-" + digits && digits == LowerAscii(Base32.Encode(payload)) && LowerAscii(digits) == digits
  {
    RoomCode.LowerTwice(Base32.Encode(payload));
  }

  /** A room code is `cc1-` and then, in lower-case base32, ticket * 2^32 + CRC, moved up to fill the last digit. */
  lemma CodeIsNumber(ticket: seq<Byte>, code: string, digits: string, pad: int, number: nat)
    requires code == RoomCode.Encode(ticket) && digits == code[4..] && pad == 5 * |digits| - 8 * |ticket| - 32
    requires number == InBase256(ticket, |ticket|) * 0x1_0000_0000 + Number(Crc32.Crc(ticket), 0)
    ensures code == "cc1-" + digits && LowerAscii(digits) == digits && 0 <= pad < 5
    ensures InBase32(digits, |digits|) == Shifted(number, pad)
  {
    var payload := RoomCode.Payload(ticket);
    CodeParts(ticket, payload, code, digits);
    PayloadIsNumber(ticket, Crc32.Crc(ticket), payload, |ticket|, |payload|);
    NumberOfPayload(payload, digits, pad, number);
  }

  lemma NumberOfPayload(payload: seq<Byte>, digits: string, pad: int, number: nat)
    requires digits == LowerAscii(Base32.Encode(payload)) && pad == 5 * |digits| - 8 * |payload|
    requires number == InBase256(payload, |payload|)
    ensures 0 <= pad < 5 && InBase32(digits, |digits|) == Shifted(number, pad)
  {
    EncodeIsNumber(payload, digits, pad);
  }
}
