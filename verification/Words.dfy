/** Machine words as bit strings, least significant bit first. */
module Words {

  type Byte = b: seq<bool> | |b| == 8 witness Zeros(8)
  type Word = w: seq<bool> | |w| == 32 witness Zeros(32)

  function Zeros(n: nat): (z: seq<bool>) {
    seq(n, _ => false)
  }

  function Ones(n: nat): (z: seq<bool>) {
    seq(n, _ => true)
  }

  /** The word written in hexadecimal by eight digits, least significant digit first. */
  function FromHex(digits: seq<nat>): (w: Word)
    requires |digits| == 8
  {
    seq(32, i requires 0 <= i < 32 => digits[i / 4] / [1, 2, 4, 8][i % 4] % 2 == 1)
  }

  function Xor(a: seq<bool>, b: seq<bool>): (c: seq<bool>)
    requires |a| == |b|
  {
    seq(|a|, i requires 0 <= i < |a| => a[i] != b[i])
  }

  function And(a: seq<bool>, b: seq<bool>): (c: seq<bool>)
    requires |a| == |b|
  {
    seq(|a|, i requires 0 <= i < |a| => a[i] && b[i])
  }

  function Not(a: seq<bool>): (c: seq<bool>) {
    seq(|a|, i requires 0 <= i < |a| => !a[i])
  }

  function ShiftRight(a: seq<bool>, n: nat): (c: seq<bool>)
    requires n <= |a|
  {
    a[n..] + Zeros(n)
  }

  /** Zero extension to 32 bits. */
  function Extend(a: seq<bool>): (w: Word)
    requires |a| <= 32
  {
    a + Zeros(32 - |a|)
  }

  /** The four bytes of a word, most significant first. */
  function BigEndian(w: Word): (bytes: seq<Byte>) {
    [w[24..], w[16..24], w[8..16], w[..8]]
  }

  function FromBigEndian(bytes: seq<Byte>): (w: Word)
    requires |bytes| == 4
  {
    [] + bytes[3] + bytes[2] + bytes[1] + bytes[0]
  }

  lemma BigEndianInverse(w: Word, bytes: seq<Byte>)
    requires |bytes| == 4
    ensures FromBigEndian(BigEndian(w)) == w
    ensures BigEndian(FromBigEndian(bytes)) == bytes
  {
    var back := FromBigEndian(bytes);
    assert back[24..] == bytes[0] && back[16..24] == bytes[1] && back[8..16] == bytes[2] && back[..8] == bytes[3];
  }
}
