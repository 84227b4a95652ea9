/** Room codes (`ticket.rs`): `cc1-` and the base32 of the ticket followed by its CRC. */
module RoomCode {
  import opened Strings
  import opened Words
  import opened Wrappers
  import Base32
  import Crc32

  const ROOM_CODE_PREFIX: string := "cc1-"

  datatype Error = InvalidPrefix | Base32Error | Truncated | ChecksumMismatch(claimed: Word, computed: Word)

  function UpperChar(c: char): char {
    if 'a' <= c <= 'z' then (c as int - 32) as char else c
  }

  function Upper(s: string): (u: string) {
    seq(|s|, i requires 0 <= i < |s| => UpperChar(s[i]))
  }

  /** The bytes a Room code carries. */
  function Payload(ticket: seq<Byte>): (p: seq<Byte>) {
    ticket + BigEndian(Crc32.Crc(ticket))
  }

  function Encode(ticket: seq<Byte>): (code: string) {
    ROOM_CODE_PREFIX + LowerAscii(Base32.Encode(Payload(ticket)))
  }

  /** The encoder as the source builds it, one buffer after the other. */
  method EncodeRoomCode(ticket: seq<Byte>) returns (out: string)
    ensures out == Encode(ticket)
  {
    var crc := Crc32.Crc32IsoHdlc(ticket);
    var payload: seq<Byte> := [];
    payload := payload + ticket;
    payload := payload + BigEndian(crc);
    assert payload == Payload(ticket);
    var b32 := LowerAscii(Base32.Encode(payload));
    out := "";
    out := out + ROOM_CODE_PREFIX;
    out := out + b32;
    assert "" + ROOM_CODE_PREFIX == ROOM_CODE_PREFIX;
  }

  function Decode(code: string): (r: Result<seq<Byte>, Error>) {
    if |code| < 4 || code[..4] != ROOM_CODE_PREFIX then Failure(InvalidPrefix)
    else
      var decoded := Base32.Decode(Upper(code[4..]));
      if decoded.None? then Failure(Base32Error)
      else CheckPayload(decoded.value)
  }

  function CheckPayload(payload: seq<Byte>): (r: Result<seq<Byte>, Error>) {
    if |payload| < 4 then Failure(Truncated)
    else
      var n := |payload| - 4;
      var claimed := FromBigEndian(payload[n..]);
      var computed := Crc32.Crc(payload[..n]);
      if claimed != computed then Failure(ChecksumMismatch(claimed, computed)) else Success(payload[..n])
  }

  lemma CheckPayloadIff(payload: seq<Byte>, ticket: seq<Byte>)
    ensures CheckPayload(payload) == Success(ticket) <==> payload == Payload(ticket)
  {
    var crc := Crc32.Crc(ticket);
    BigEndianInverse(crc, BigEndian(crc));
    assert Payload(ticket)[..|ticket|] == ticket && Payload(ticket)[|ticket|..] == BigEndian(crc);
    if |payload| >= 4 {
      var n := |payload| - 4;
      BigEndianInverse(crc, payload[n..]);
      assert payload == payload[..n] + payload[n..];
    }
  }

  lemma CaseFold(x: char, y: char)
    ensures UpperChar(x) == UpperChar(y) <==> LowerChar(x) == LowerChar(y)
  {
  }

  lemma UpperOfLower(s: string, e: string)
    requires forall i :: 0 <= i < |e| ==> UpperChar(e[i]) == e[i]
    ensures LowerAscii(s) == LowerAscii(e) <==> Upper(s) == e
  {
    if LowerAscii(s) == LowerAscii(e) {
      forall i | 0 <= i < |s|
        ensures Upper(s)[i] == e[i]
      {
        assert LowerAscii(s)[i] == LowerAscii(e)[i];
        CaseFold(s[i], e[i]);
      }
      assert Upper(s) == e;
    }
    if Upper(s) == e {
      forall i | 0 <= i < |s|
        ensures LowerAscii(s)[i] == LowerAscii(e)[i]
      {
        assert Upper(s)[i] == e[i];
        CaseFold(s[i], e[i]);
      }
      assert LowerAscii(s) == LowerAscii(e);
    }
  }

  lemma EncodedIsUpper(bytes: seq<Byte>)
    ensures forall i :: 0 <= i < |Base32.Encode(bytes)| ==>
      UpperChar(Base32.Encode(bytes)[i]) == Base32.Encode(bytes)[i]
  {
    Base32.SymbolsInverse(Base32.Padded(Base32.Bits(bytes)));
    forall i | 0 <= i < |Base32.Encode(bytes)|
      ensures UpperChar(Base32.Encode(bytes)[i]) == Base32.Encode(bytes)[i]
    {
      assert Base32.ValueOf(Base32.Encode(bytes)[i]).Some?;
    }
  }

  /** Exactly which strings decode to which tickets: the code that encoding gives, in any letter
      case after the prefix, and nothing else.  Both round trips are special cases. */
  lemma DecodeIff(code: string, ticket: seq<Byte>)
    ensures Decode(code) == Success(ticket)
      <==> |code| >= 4 && code[..4] == ROOM_CODE_PREFIX && LowerAscii(code[4..]) == Encode(ticket)[4..]
  {
    var e := Base32.Encode(Payload(ticket));
    assert Encode(ticket)[4..] == LowerAscii(e);
    if |code| >= 4 && code[..4] == ROOM_CODE_PREFIX {
      EncodedIsUpper(Payload(ticket));
      UpperOfLower(code[4..], e);
      Base32.DecodeEncode(Payload(ticket));
      var decoded := Base32.Decode(Upper(code[4..]));
      if decoded.Some? {
        Base32.EncodeDecode(Upper(code[4..]));
        CheckPayloadIff(decoded.value, ticket);
      }
      CheckPayloadIff(Payload(ticket), ticket);
    }
  }

  lemma LowerTwice(s: string)
    ensures LowerAscii(LowerAscii(s)) == LowerAscii(s)
  {
  }

  lemma RoundTrip(ticket: seq<Byte>)
    ensures Decode(Encode(ticket)) == Success(ticket)
  {
    var l := LowerAscii(Base32.Encode(Payload(ticket)));
    assert (ROOM_CODE_PREFIX + l)[..4] == ROOM_CODE_PREFIX && (ROOM_CODE_PREFIX + l)[4..] == l;
    LowerTwice(Base32.Encode(Payload(ticket)));
    DecodeIff(ROOM_CODE_PREFIX + l, ticket);
  }

  /** The part after the prefix is the base32 of these bytes, up to letter case. */
  predicate Carries(code: string, bytes: seq<Byte>) {
    ROOM_CODE_PREFIX <= code && Upper(code[4..]) == Base32.Encode(bytes)
  }

  lemma CarriesIff(code: string, bytes: seq<Byte>)
    requires ROOM_CODE_PREFIX <= code
    ensures Carries(code, bytes) <==> Base32.Decode(Upper(code[4..])) == Some(bytes)
  {
    Base32.DecodeEncode(bytes);
    if Base32.Decode(Upper(code[4..])) == Some(bytes) {
      Base32.EncodeDecode(Upper(code[4..]));
    }
  }

  lemma MismatchIff(bytes: seq<Byte>)
    requires |bytes| >= 4
    ensures CheckPayload(bytes).Failure? <==> forall ticket :: Payload(ticket) != bytes
  {
    var n := |bytes| - 4;
    CheckPayloadIff(bytes, bytes[..n]);
    if ticket :| Payload(ticket) == bytes {
      CheckPayloadIff(bytes, ticket);
    }
  }

  /** Which error says what: the prefix is missing; the rest is the base32 of no bytes; of fewer than four; of a
      payload with another CRC. */
  lemma ErrorIff(code: string)
    ensures Decode(code) == Failure(InvalidPrefix) <==> !(ROOM_CODE_PREFIX <= code)
    ensures Decode(code) == Failure(Base32Error) <==>
            ROOM_CODE_PREFIX <= code && forall bytes :: !Carries(code, bytes)
    ensures Decode(code) == Failure(Truncated) <==> exists bytes :: Carries(code, bytes) && |bytes| < 4
    ensures Decode(code).Failure? && Decode(code).error.ChecksumMismatch? <==>
            exists bytes :: Carries(code, bytes) && |bytes| >= 4 && forall ticket :: Payload(ticket) != bytes
  {
    if ROOM_CODE_PREFIX <= code {
      assert code[..4] == ROOM_CODE_PREFIX;
      forall bytes
        ensures Carries(code, bytes) <==> Base32.Decode(Upper(code[4..])) == Some(bytes)
      {
        CarriesIff(code, bytes);
      }
      var decoded := Base32.Decode(Upper(code[4..]));
      if decoded.Some? && |decoded.value| >= 4 {
        MismatchIff(decoded.value);
      }
    } else if |code| >= 4 {
      assert code[..4] != ROOM_CODE_PREFIX;
    }
  }

  // ----- errors

  /** A payload that differs from a valid one only inside two adjacent bytes fails the check,
      whether those bytes lie in the ticket, in the CRC, or on both sides of the boundary. */
  lemma TwoByteChangeDetected(p: seq<Byte>, q: seq<Byte>, j: nat)
    requires CheckPayload(p).Success? && |p| == |q| && p != q
    requires forall m :: 0 <= m < |p| && m != j && m != j + 1 ==> p[m] == q[m]
    ensures CheckPayload(q).Failure?
  {
    var n := |p| - 4;
    var t, u := p[..n], q[..n];
    CheckPayloadIff(p, t);
    CheckPayloadIff(q, u);
    if t != u {
      var m :| 0 <= m < n && t[m] != u[m];
      var i := TicketChangeDetected(t, u, j);
      assert Payload(t)[n + i] == BigEndian(Crc32.Crc(t))[i] && Payload(u)[n + i] == BigEndian(Crc32.Crc(u))[i];
      assert p[n + i] == q[n + i];
    }
  }

  /** A change confined to bytes `j` and `j + 1` of a ticket shows in a CRC byte other than the
      first; or in the first, if byte `j + 1` is still part of the ticket. */
  lemma TicketChangeDetected(t: seq<Byte>, u: seq<Byte>, j: nat) returns (i: nat)
    requires |t| == |u| && t != u && j < |t|
    requires forall m :: 0 <= m < |t| && m != j && m != j + 1 ==> t[m] == u[m]
    ensures i < 4 && (j + 1 == |t| ==> i > 0)
    ensures BigEndian(Crc32.Crc(t))[i] != BigEndian(Crc32.Crc(u))[i]
  {
    if j + 1 < |t| {
      i := InnerChangeDetected(t, u, j);
    } else {
      assert t == t[..j] + [t[j]] && u == t[..j] + [u[j]];
      i := LastByteChangeDetected(t[..j], t[j], u[j]);
    }
  }

  lemma InnerChangeDetected(t: seq<Byte>, u: seq<Byte>, j: nat) returns (i: nat)
    requires |t| == |u| && t != u && j + 1 < |t|
    requires forall m :: 0 <= m < |t| && m != j && m != j + 1 ==> t[m] == u[m]
    ensures i < 4 && BigEndian(Crc32.Crc(t))[i] != BigEndian(Crc32.Crc(u))[i]
  {
    var x, y := t[j..j + 2], u[j..j + 2];
    assert t == t[..j] + x + t[j + 2..] && u == t[..j] + y + t[j + 2..];
    Crc32.BurstDetected(t[..j], x, y, t[j + 2..]);
    i := WordsDifferSomewhere(Crc32.Crc(t), Crc32.Crc(u));
  }

  lemma WordsDifferSomewhere(v: Word, w: Word) returns (i: nat)
    requires v != w
    ensures i < 4 && BigEndian(v)[i] != BigEndian(w)[i]
  {
    BigEndianInverse(v, BigEndian(v));
    BigEndianInverse(w, BigEndian(w));
    i :| 0 <= i < 4 && BigEndian(v)[i] != BigEndian(w)[i];
  }

  lemma LastByteChangeDetected(front: seq<Byte>, x: Byte, y: Byte) returns (i: nat)
    requires x != y
    ensures 1 <= i < 4 && BigEndian(Crc32.Crc(front + [x]))[i] != BigEndian(Crc32.Crc(front + [y]))[i]
  {
    var v, w := Crc32.Crc(front + [x]), Crc32.Crc(front + [y]);
    Crc32.LastByteMovesLowBits(front, x, y);
    if forall k :: 1 <= k < 4 ==> BigEndian(v)[k] == BigEndian(w)[k] {
      SameLowBytes(v, w);
    }
    i :| 1 <= i < 4 && BigEndian(v)[i] != BigEndian(w)[i];
  }

  lemma SameLowBytes(v: Word, w: Word)
    requires forall i :: 1 <= i < 4 ==> BigEndian(v)[i] == BigEndian(w)[i]
    ensures v[..24] == w[..24]
  {
    assert v[..8] == BigEndian(v)[3] && v[8..16] == BigEndian(v)[2] && v[16..24] == BigEndian(v)[1];
    assert w[..8] == BigEndian(w)[3] && w[8..16] == BigEndian(w)[2] && w[16..24] == BigEndian(w)[1];
    assert v[..24] == v[..8] + v[8..16] + v[16..24];
    assert w[..24] == w[..8] + w[8..16] + w[16..24];
  }

  /** Two base32 texts that differ in one symbol carry bytes that differ, but in two adjacent places at most. */
  lemma OneSymbolTwoBytes(s: string, t: string, k: nat)
    requires Base32.Decode(s).Some? && Base32.Decode(t).Some? && |s| == |t| && k < |s| && s[k] != t[k]
    requires forall m :: 0 <= m < |s| && m != k ==> s[m] == t[m]
    ensures var p, q := Base32.Decode(s).value, Base32.Decode(t).value;
      && p != q && |p| == |q|
      && forall m :: 0 <= m < |p| && m != 5 * k / 8 && m != 5 * k / 8 + 1 ==> p[m] == q[m]
  {
    var p, q := Base32.Decode(s).value, Base32.Decode(t).value;
    Base32.EncodeDecode(s);
    Base32.EncodeDecode(t);
    forall m | 0 <= m < |p| && m != 5 * k / 8 && m != 5 * k / 8 + 1
      ensures p[m] == q[m]
    {
      Base32.LocalChange(s, t, k, m);
    }
  }

  lemma DecodeParts(code: string)
    requires Decode(code).Success?
    ensures |code| >= 4 && Base32.Decode(Upper(code[4..])).Some?
    ensures CheckPayload(Base32.Decode(Upper(code[4..])).value).Success?
  {
  }

  lemma OneCharacterOneSymbol(code: string, i: nat, c: char)
    requires 4 <= i < |code| && LowerChar(c) != LowerChar(code[i])
    ensures var s, t, k := Upper(code[4..]), Upper(code[i := c][4..]), i - 4;
      |s| == |t| && k < |s| && s[k] != t[k] && forall m :: 0 <= m < |s| && m != k ==> s[m] == t[m]
  {
    CaseFold(c, code[i]);
  }

  /** Changing one character after the prefix of a valid Room code, other than its letter case,
      always makes it invalid. */
  lemma SingleCharacterErrorDetected(code: string, i: nat, c: char)
    requires Decode(code).Success? && 4 <= i < |code| && LowerChar(c) != LowerChar(code[i])
    ensures Decode(code[i := c]).Failure?
  {
    var wrong := code[i := c];
    if Decode(wrong).Success? {
      DecodeParts(code);
      DecodeParts(wrong);
      OneCharacterOneSymbol(code, i, c);
      var s, t := Upper(code[4..]), Upper(wrong[4..]);
      OneSymbolTwoBytes(s, t, i - 4);
      TwoByteChangeDetected(Base32.Decode(s).value, Base32.Decode(t).value, 5 * (i - 4) / 8);
    }
  }
}
