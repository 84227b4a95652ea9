/** UTF-8 (RFC 3629, section 3), as Rust's `String` uses it. */
module Utf8 {
  import opened Wrappers

  type byte = b: int | 0 <= b < 256

  function EncodeChar(c: char): (bytes: seq<byte>)
    ensures 1 <= |bytes| <= 4
  {
    var n := c as int;
    if n < 0x80 then [n]
    else if n < 0x800 then [0xC0 + n / 64, 0x80 + n % 64]
    else if n < 0x10000 then [0xE0 + n / 4096, 0x80 + n / 64 % 64, 0x80 + n % 64]
    else [0xF0 + n / 262144, 0x80 + n / 4096 % 64, 0x80 + n / 64 % 64, 0x80 + n % 64]
  }

  function Encode(s: string): (bytes: seq<byte>)
    decreases |s|
  {
    if s == "" then [] else EncodeChar(s[0]) + Encode(s[1..])
  }

  predicate IsContinuation(b: byte) {
    0x80 <= b < 0xC0
  }

  predicate IsScalar(n: int) {
    0 <= n < 0xD800 || 0xE000 <= n < 0x110000
  }

  /** How many continuation bytes a lead byte announces; 4 if it is not a lead byte. */
  function Continuations(b: byte): (k: nat) {
    if b < 0x80 then 0 else if b < 0xC0 then 4 else if b < 0xE0 then 1 else if b < 0xF0 then 2
    else if b < 0xF8 then 3 else 4
  }

  function Low(b: int): int {
    b - 0x80
  }

  function CodePoint(bytes: seq<byte>, k: nat): (n: int)
    requires k < 4 && k < |bytes|
  {
    var b: int := bytes[0];
    if k == 0 then b
    else if k == 1 then (b - 0xC0) * 64 + Low(bytes[1])
    else if k == 2 then (b - 0xE0) * 4096 + Low(bytes[1]) * 64 + Low(bytes[2])
    else (b - 0xF0) * 262144 + Low(bytes[1]) * 4096 + Low(bytes[2]) * 64 + Low(bytes[3])
  }

  /** The code point at the front and its length: shortest forms only, no surrogates. */
  function DecodeChar(bytes: seq<byte>): (r: Option<(char, nat)>)
    requires bytes != []
    ensures r.Some? ==> 1 <= r.value.1 <= |bytes|
  {
    var k := Continuations(bytes[0]);
    if k == 4 || |bytes| <= k || exists i :: 1 <= i <= k && !IsContinuation(bytes[i]) then None
    else
      var n := CodePoint(bytes, k);
      if n < [0, 0x80, 0x800, 0x10000][k] || !IsScalar(n) then None else Some((n as char, k + 1))
  }

  function Decode(bytes: seq<byte>): (r: Option<string>)
    decreases |bytes|
  {
    if bytes == [] then Some("")
    else
      var first := DecodeChar(bytes);
      if first.None? then None
      else
        var rest := Decode(bytes[first.value.1..]);
        if rest.None? then None else Some([first.value.0] + rest.value)
  }

  lemma Digits64(n: nat)
    ensures n == n / 64 * 64 + n % 64
    ensures n == n / 4096 * 4096 + n / 64 % 64 * 64 + n % 64
    ensures n == n / 262144 * 262144 + n / 4096 % 64 * 4096 + n / 64 % 64 * 64 + n % 64
  {
    assert n / 4096 == n / 64 / 64 && n / 262144 == n / 4096 / 64;
  }

  lemma CodePointOfChar(c: char, rest: seq<byte>)
    ensures Continuations(EncodeChar(c)[0]) == |EncodeChar(c)| - 1
    ensures CodePoint(EncodeChar(c) + rest, |EncodeChar(c)| - 1) == c as int
  {
    Digits64(c as int);
  }

  lemma DecodeEncodeChar(c: char, rest: seq<byte>)
    ensures DecodeChar(EncodeChar(c) + rest) == Some((c, |EncodeChar(c)|))
  {
    var bytes := EncodeChar(c);
    CodePointOfChar(c, rest);
    assert (bytes + rest)[0] == bytes[0];
    forall i | 1 <= i < |bytes|
      ensures IsContinuation((bytes + rest)[i])
    {
      assert (bytes + rest)[i] == bytes[i];
    }
  }

  lemma {:induction false} DecodeEncode(s: string)
    ensures Decode(Encode(s)) == Some(s)
    decreases |s|
  {
    if s != "" {
      var first, rest := EncodeChar(s[0]), Encode(s[1..]);
      DecodeEncodeChar(s[0], rest);
      assert (first + rest)[|first|..] == rest;
      DecodeEncode(s[1..]);
      assert s == [s[0]] + s[1..];
    }
  }

  /** Encoding keeps every ASCII byte apart from the bytes of other characters. */
  lemma {:induction false} AsciiStaysApart(s: string, a: byte)
    requires a < 0x80 && forall i :: 0 <= i < |s| ==> s[i] as int != a
    ensures forall i :: 0 <= i < |Encode(s)| ==> Encode(s)[i] != a
    decreases |s|
  {
    if s != "" {
      AsciiStaysApart(s[1..], a);
    }
  }

  lemma {:induction false} EncodeConcat(s: string, t: string)
    ensures Encode(s + t) == Encode(s) + Encode(t)
    decreases |s|
  {
    if s == "" {
      assert s + t == t;
    } else {
      assert (s + t)[1..] == s[1..] + t;
      EncodeConcat(s[1..], t);
    }
  }

  lemma {:induction false} AsciiLength(s: string)
    requires forall i :: 0 <= i < |s| ==> s[i] as int < 0x80
    ensures |Encode(s)| == |s|
    decreases |s|
  {
    if s != "" {
      AsciiLength(s[1..]);
    }
  }

  // ----- boundaries are where characters start

  predicate IsBoundary(s: seq<byte>, i: int) {
    i == 0 || i == |s| || (0 < i < |s| && !IsContinuation(s[i]))
  }

  lemma {:induction false} BoundaryOfText(t: string, i: nat)
    requires i <= |Encode(t)|
    ensures IsBoundary(Encode(t), i) <==> exists k :: 0 <= k <= |t| && |Encode(t[..k])| == i
    decreases |t|
  {
    var s := Encode(t);
    assert t[..0] == "" && t[..|t|] == t;
    if i == 0 {
      assert |Encode(t[..0])| == 0;
    } else if t != "" {
      var first := |EncodeChar(t[0])|;
      forall k | 1 <= k <= |t|
        ensures |Encode(t[..k])| == first + |Encode(t[1..][..k - 1])|
      {
        assert t[..k][1..] == t[1..][..k - 1] && t[..k][0] == t[0];
      }
      if i < first {
        InsideChar(t[0], Encode(t[1..]), i);
      } else {
        BoundaryOfText(t[1..], i - first);
        AfterChar(t[0], Encode(t[1..]), i);
        if exists k :: 0 <= k <= |t[1..]| && |Encode(t[1..][..k])| == i - first {
          var k :| 0 <= k <= |t[1..]| && |Encode(t[1..][..k])| == i - first;
          assert |Encode(t[..k + 1])| == i;
        }
      }
    }
  }

  lemma InsideChar(c: char, rest: seq<byte>, i: nat)
    requires 0 < i < |EncodeChar(c)|
    ensures !IsBoundary(EncodeChar(c) + rest, i)
  {
    assert (EncodeChar(c) + rest)[i] == EncodeChar(c)[i];
  }

  lemma AfterChar(c: char, rest: seq<byte>, i: nat)
    requires |EncodeChar(c)| <= i <= |EncodeChar(c)| + |rest|
    requires rest != [] ==> !IsContinuation(rest[0])
    ensures var n := |EncodeChar(c)|;
      IsBoundary(EncodeChar(c) + rest, i) <==> IsBoundary(rest, i - n)
  {
    var n := |EncodeChar(c)|;
    if i - n < |rest| {
      assert (EncodeChar(c) + rest)[i] == rest[i - n];
    }
  }

  /** No encoding is the beginning of another, so what is inside an encoding is inside the text. */
  lemma {:induction false} EncodePrefix(u: string, v: string, rest: seq<byte>)
    requires Encode(v) == Encode(u) + rest
    ensures u <= v && rest == Encode(v[|u|..])
    decreases |u|
  {
    if u == "" {
      assert v[0..] == v;
    } else {
      var c, more := EncodeChar(u[0]), Encode(u[1..]) + rest;
      assert Encode(v) == c + more;
      DecodeEncodeChar(u[0], more);
      DecodeEncodeChar(v[0], Encode(v[1..]));
      assert (c + more)[|c|..] == more;
      assert Encode(v[1..]) == more;
      EncodePrefix(u[1..], v[1..], rest);
      assert v[|u|..] == v[1..][|u| - 1..];
      assert u == [u[0]] + u[1..] && v == [v[0]] + v[1..];
    }
  }

  // ----- what decodes is an encoding

  lemma DigitsOf(high: nat, low: nat)
    requires low < 64
    ensures (high * 64 + low) / 64 == high && (high * 64 + low) % 64 == low
  {
  }

  lemma DecodedTwo(a: byte, b: byte)
    requires 0xC0 <= a < 0xE0 && IsContinuation(b)
    ensures var n := (a - 0xC0) * 64 + Low(b); 0 <= n < 0x800 && 0xC0 + n / 64 == a && 0x80 + n % 64 == b
  {
    DigitsOf(a - 0xC0, Low(b));
  }

  lemma DecodedThree(a: byte, b: byte, c: byte)
    requires 0xE0 <= a < 0xF0 && IsContinuation(b) && IsContinuation(c)
    ensures var n := (a - 0xE0) * 4096 + Low(b) * 64 + Low(c);
      0 <= n < 0x10000 && 0xE0 + n / 4096 == a && 0x80 + n / 64 % 64 == b && 0x80 + n % 64 == c
  {
    var m := (a - 0xE0) * 64 + Low(b);
    DigitsOf(a - 0xE0, Low(b));
    DigitsOf(m, Low(c));
    assert (m * 64 + Low(c)) / 4096 == m / 64;
  }

  lemma DecodedFour(a: byte, b: byte, c: byte, d: byte)
    requires 0xF0 <= a < 0xF8 && IsContinuation(b) && IsContinuation(c) && IsContinuation(d)
    ensures var n := (a - 0xF0) * 262144 + Low(b) * 4096 + Low(c) * 64 + Low(d);
      && 0 <= n && 0xF0 + n / 262144 == a && 0x80 + n / 4096 % 64 == b
      && 0x80 + n / 64 % 64 == c && 0x80 + n % 64 == d
  {
    var m := (a - 0xF0) * 64 + Low(b);
    var k := m * 64 + Low(c);
    DigitsOf(a - 0xF0, Low(b));
    DigitsOf(m, Low(c));
    DigitsOf(k, Low(d));
    assert (k * 64 + Low(d)) / 4096 == k / 64 && (k * 64 + Low(d)) / 262144 == k / 64 / 64;
  }

  lemma EncodeDecodedChar(bytes: seq<byte>)
    requires bytes != [] && DecodeChar(bytes).Some?
    ensures EncodeChar(DecodeChar(bytes).value.0) == bytes[..DecodeChar(bytes).value.1]
  {
    var k := Continuations(bytes[0]);
    assert forall i :: 1 <= i <= k ==> IsContinuation(bytes[i]);
    if k == 1 {
      DecodedTwo(bytes[0], bytes[1]);
      assert bytes[..2] == [bytes[0], bytes[1]];
    } else if k == 2 {
      DecodedThree(bytes[0], bytes[1], bytes[2]);
      assert bytes[..3] == [bytes[0], bytes[1], bytes[2]];
    } else if k == 3 {
      DecodedFour(bytes[0], bytes[1], bytes[2], bytes[3]);
      assert bytes[..4] == [bytes[0], bytes[1], bytes[2], bytes[3]];
    }
  }

  lemma Reassemble(bytes: seq<byte>, k: nat, c: char, rest: string)
    requires k <= |bytes| && EncodeChar(c) == bytes[..k] && Encode(rest) == bytes[k..]
    ensures Encode([c] + rest) == bytes
  {
    assert ([c] + rest)[0] == c && ([c] + rest)[1..] == rest;
    assert bytes == bytes[..k] + bytes[k..];
  }

  /** The first character, its length, and the rest of the text. */
  lemma DecodeFirst(bytes: seq<byte>) returns (c: char, k: nat, rest: string)
    requires bytes != [] && Decode(bytes).Some?
    ensures 1 <= k <= |bytes| && EncodeChar(c) == bytes[..k]
    ensures Decode(bytes[k..]) == Some(rest) && Decode(bytes) == Some([c] + rest)
  {
    EncodeDecodedChar(bytes);
    c, k := DecodeChar(bytes).value.0, DecodeChar(bytes).value.1;
    rest := Decode(bytes[k..]).value;
  }

  lemma {:induction false} EncodeDecode(bytes: seq<byte>)
    requires Decode(bytes).Some?
    ensures Encode(Decode(bytes).value) == bytes
    decreases |bytes|
  {
    if bytes != [] {
      var c, k, rest := DecodeFirst(bytes);
      EncodeDecode(bytes[k..]);
      Reassemble(bytes, k, c, rest);
    }
  }

  // ----- around one place in a text

  /** The bytes from the `k`-th character on are the encoding of the characters from there on. */
  lemma EncodeSuffix(s: string, k: nat)
    requires k <= |s|
    ensures |Encode(s[..k])| <= |Encode(s)| && Encode(s)[|Encode(s[..k])|..] == Encode(s[k..])
  {
    assert s[..k] + s[k..] == s;
    EncodeConcat(s[..k], s[k..]);
  }

  /** After an ASCII byte the next character starts. */
  lemma {:induction false} AfterAsciiByte(t: string, p: nat)
    requires p < |Encode(t)| && Encode(t)[p] < 0x80
    ensures IsBoundary(Encode(t), p + 1)
    decreases |t|
  {
    var first, rest := EncodeChar(t[0]), Encode(t[1..]);
    if p < |first| {
      assert first[p] < 0x80 && |first| == 1;
      AfterChar(t[0], rest, p + 1);
    } else {
      assert rest[p - |first|] == Encode(t)[p];
      AfterAsciiByte(t[1..], p - |first|);
      AfterChar(t[0], rest, p + 1);
    }
  }

  // ----- decoding that replaces what is malformed

  /** Can this byte stand second, after this lead byte? */
  predicate CanFollow(lead: byte, b: byte) {
    && IsContinuation(b)
    && (lead == 0xE0 ==> 0xA0 <= b) && (lead == 0xED ==> b < 0xA0)
    && (lead == 0xF0 ==> 0x90 <= b) && (lead == 0xF4 ==> b < 0x90)
  }

  /** How many bytes at the front one replacement character stands for: the longest beginning of some character,
      or else one byte (the Unicode Standard, section 3.9). */
  function Malformed(bytes: seq<byte>): (n: nat)
    requires bytes != []
    ensures 1 <= n <= 3 && n <= |bytes|
  {
    if bytes[0] < 0xC2 || bytes[0] > 0xF4 || |bytes| == 1 || !CanFollow(bytes[0], bytes[1]) then 1
    else if |bytes| == 2 || !IsContinuation(bytes[2]) then 2
    else 3
  }

  /** What Node's `toString("utf8")` makes of any bytes. */
  function Lossy(bytes: seq<byte>): (s: string)
    decreases |bytes|
  {
    if bytes == [] then ""
    else
      var first := DecodeChar(bytes);
      if first.Some? then [first.value.0] + Lossy(bytes[first.value.1..])
      else ['\U{FFFD}'] + Lossy(bytes[Malformed(bytes)..])
  }

  lemma {:induction false} LossyDecodes(bytes: seq<byte>)
    requires Decode(bytes).Some?
    ensures Lossy(bytes) == Decode(bytes).value
    decreases |bytes|
  {
    if bytes != [] {
      LossyDecodes(bytes[DecodeChar(bytes).value.1..]);
    }
  }

  lemma EncodeCons(c: char, rest: string)
    ensures Encode([c] + rest) == EncodeChar(c) + Encode(rest)
  {
    assert ([c] + rest)[0] == c && ([c] + rest)[1..] == rest;
  }

  /** A replacement character is no shorter than what it replaces. */
  lemma {:induction false} LossyIsNoShorter(bytes: seq<byte>)
    ensures |Encode(Lossy(bytes))| >= |bytes|
    decreases |bytes|
  {
    if bytes != [] {
      var first := DecodeChar(bytes);
      var c := if first.Some? then first.value.0 else '\U{FFFD}';
      var k := if first.Some? then first.value.1 else Malformed(bytes);
      if first.Some? {
        EncodeDecodedChar(bytes);
      }
      LossyIsNoShorter(bytes[k..]);
      EncodeCons(c, Lossy(bytes[k..]));
    }
  }

  /** The replacing decoder keeps the bytes exactly if they are well-formed. */
  lemma LossyKeepsIff(bytes: seq<byte>)
    ensures Encode(Lossy(bytes)) == bytes <==> Decode(bytes).Some?
  {
    if Decode(bytes).Some? {
      LossyDecodes(bytes);
      EncodeDecode(bytes);
    } else {
      DecodeEncode(Lossy(bytes));
    }
  }

  // ----- slices of a text

  /** From a boundary on there is a text. */
  lemma RestOfText(text: string, i: nat) returns (rest: string)
    requires i <= |Encode(text)| && IsBoundary(Encode(text), i)
    ensures Encode(text)[i..] == Encode(rest)
  {
    BoundaryOfText(text, i);
    var k :| 0 <= k <= |text| && |Encode(text[..k])| == i;
    EncodeSuffix(text, k);
    rest := text[k..];
  }

  /** From a boundary on, a slice of a text is well-formed exactly if it ends on a boundary. */
  lemma SliceDecodesIff(text: string, i: nat, slice: seq<byte>, back: seq<byte>)
    requires i <= |Encode(text)| && IsBoundary(Encode(text), i) && Encode(text)[i..] == slice + back
    ensures Decode(slice).Some? <==> IsBoundary(Encode(text), i + |slice|)
  {
    var rest := RestOfText(text, i);
    FrontDecodesIff(rest, slice, back);
    RestBoundary(Encode(text), i, i + |slice|);
  }

  lemma SameFront<T>(a: seq<T>, b: seq<T>, c: seq<T>, d: seq<T>)
    requires a + b == c + d && |a| == |c|
    ensures a == c
  {
    assert a == (a + b)[..|a|] == (c + d)[..|c|] == c;
  }

  lemma FrontOfText(text: string, k: nat, front: seq<byte>, back: seq<byte>)
    requires k <= |text| && Encode(text) == front + back && |Encode(text[..k])| == |front|
    ensures Decode(front) == Some(text[..k])
  {
    assert text[..k] + text[k..] == text;
    EncodeConcat(text[..k], text[k..]);
    SameFront(front, back, Encode(text[..k]), Encode(text[k..]));
    DecodeEncode(text[..k]);
  }

  lemma TextFront(text: string, begin: string, back: seq<byte>)
    requires Encode(text) == Encode(begin) + back
    ensures exists k :: 0 <= k <= |text| && |Encode(text[..k])| == |Encode(begin)|
  {
    EncodePrefix(begin, text, back);
    assert text[..|begin|] == begin;
  }

  /** A beginning of a text is well-formed exactly if it ends on a boundary. */
  lemma FrontDecodesIff(text: string, front: seq<byte>, back: seq<byte>)
    requires Encode(text) == front + back
    ensures Decode(front).Some? <==> IsBoundary(Encode(text), |front|)
  {
    BoundaryOfText(text, |front|);
    if Decode(front).Some? {
      EncodeDecode(front);
      TextFront(text, Decode(front).value, back);
    }
    if k :| 0 <= k <= |text| && |Encode(text[..k])| == |front| {
      FrontOfText(text, k, front, back);
    }
  }

  lemma RestBoundary(bytes: seq<byte>, i: nat, j: nat)
    requires i <= j <= |bytes| && IsBoundary(bytes, i)
    ensures IsBoundary(bytes[i..], j - i) <==> IsBoundary(bytes, j)
  {
  }
}
