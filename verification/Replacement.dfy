/** What the replacing decoder of UTF-8 replaces: the longest beginnings of characters (the Unicode Standard,
    section 3.9, "U+FFFD Substitution of Maximal Subparts"). */
module Replacement {
  import opened Utf8
  import opened Wrappers

  /** The first `n` bytes begin the encoding of some character. */
  ghost predicate Begins(bytes: seq<byte>, n: nat) {
    n <= |bytes| && exists c :: bytes[..n] <= EncodeChar(c)
  }

  lemma TwoBytesFollow(n: nat)
    requires 0x80 <= n < 0x800
    ensures 0xC2 <= 0xC0 + n / 64 <= 0xDF
  {
  }

  lemma ThreeBytesFollow(n: nat, a: nat, b: nat)
    requires 0x800 <= n < 0x10000 && !(0xD800 <= n < 0xE000) && a == n / 4096 && b == n / 64 % 64
    ensures a <= 15 && (a == 0 ==> b >= 32) && (a == 13 ==> b < 32)
  {
    Digits64(n);
  }

  lemma FourBytesFollow(n: nat, a: nat, b: nat)
    requires 0x10000 <= n < 0x110000 && a == n / 262144 && b == n / 4096 % 64
    ensures a <= 4 && (a == 0 ==> b >= 16) && (a == 4 ==> b < 16)
  {
    Digits64(n);
  }

  lemma EncodedFollows(c: char, e: seq<byte>)
    requires e == EncodeChar(c) && |e| > 1
    ensures 0xC2 <= e[0] <= 0xF4 && CanFollow(e[0], e[1]) && (|e| > 2 ==> IsContinuation(e[2]))
  {
    var n := c as int;
    if n < 0x800 {
      TwoBytesFollow(n);
    } else if n < 0x10000 {
      ThreeBytesFollow(n, n / 4096, n / 64 % 64);
    } else {
      FourBytesFollow(n, n / 262144, n / 4096 % 64);
    }
  }

  /** A lead byte and one that can follow it begin a character. */
  lemma TwoBegin(a: byte, b: byte) returns (c: char)
    requires 0xE0 <= a <= 0xF4 && CanFollow(a, b)
    ensures |EncodeChar(c)| > 2 && EncodeChar(c)[0] == a && EncodeChar(c)[1] == b
  {
    var bytes: seq<byte> := if a < 0xF0 then [a, b, 0x80] else [a, b, 0x80, 0x80];
    assert DecodeChar(bytes).Some?;
    EncodeDecodedChar(bytes);
    c := DecodeChar(bytes).value.0;
  }

  lemma ThreeBegin(a: byte, b: byte, d: byte) returns (c: char)
    requires 0xF0 <= a <= 0xF4 && CanFollow(a, b) && IsContinuation(d)
    ensures |EncodeChar(c)| == 4 && EncodeChar(c)[0] == a && EncodeChar(c)[1] == b && EncodeChar(c)[2] == d
  {
    var bytes: seq<byte> := [a, b, d, 0x80];
    assert DecodeChar(bytes).Some?;
    EncodeDecodedChar(bytes);
    c := DecodeChar(bytes).value.0;
  }

  lemma ShortBegin(bytes: seq<byte>)
    requires bytes != [] && DecodeChar(bytes).None? && Malformed(bytes) > 1
    ensures 0xE0 <= bytes[0] <= 0xF4 && CanFollow(bytes[0], bytes[1])
    ensures Malformed(bytes) == 3 ==> 0xF0 <= bytes[0] && IsContinuation(bytes[2])
  {
  }

  lemma MalformedBegins(bytes: seq<byte>)
    requires bytes != [] && DecodeChar(bytes).None?
    ensures Malformed(bytes) == 1 || Begins(bytes, Malformed(bytes))
  {
    var n := Malformed(bytes);
    if n > 1 {
      ShortBegin(bytes);
      if n == 2 {
        var c := TwoBegin(bytes[0], bytes[1]);
        assert bytes[..2] <= EncodeChar(c);
      } else {
        var c := ThreeBegin(bytes[0], bytes[1], bytes[2]);
        assert bytes[..3] <= EncodeChar(c);
      }
    }
  }

  lemma WholeCharacter(bytes: seq<byte>, c: char)
    requires EncodeChar(c) <= bytes
    ensures DecodeChar(bytes).Some?
  {
    var e := EncodeChar(c);
    assert bytes == e + bytes[|e|..];
    DecodeEncodeChar(c, bytes[|e|..]);
  }

  lemma NothingLonger(bytes: seq<byte>, m: nat, c: char)
    requires bytes != [] && DecodeChar(bytes).None? && Malformed(bytes) < m <= |bytes|
    ensures !(bytes[..m] <= EncodeChar(c))
  {
    var e := EncodeChar(c);
    if bytes[..m] <= e {
      assert forall i :: 0 <= i < m ==> bytes[i] == bytes[..m][i] == e[i];
      EncodedFollows(c, e);
      if m == |e| {
        WholeCharacter(bytes, c);
      }
    }
  }

  /** Where no character starts, one replacement stands for the longest beginning of a character; and if not even
      one byte begins any, for that byte. */
  lemma ReplacesMaximalSubpart(bytes: seq<byte>)
    requires bytes != [] && DecodeChar(bytes).None?
    ensures var n := Malformed(bytes);
      && (n == 1 || Begins(bytes, n))
      && forall m :: n < m <= |bytes| ==> !Begins(bytes, m)
  {
    MalformedBegins(bytes);
    forall m | Malformed(bytes) < m <= |bytes|
      ensures !Begins(bytes, m)
    {
      forall c: char
        ensures !(bytes[..m] <= EncodeChar(c))
      {
        NothingLonger(bytes, m, c);
      }
    }
  }
}
