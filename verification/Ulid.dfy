/** ULID normalisation (`normalize_ulid` in `message.rs`). */
module Ulid {
  import opened Strings
  import opened Wrappers

  const ULID_LEN: nat := 26

  datatype Error = ReservedU | InvalidChar(c: char) | WrongLength(n: nat)

  /** The digits of Crockford's alphabet: the decimal digits, then the upper-case letters but I, L, O, U. */
  predicate IsCrockford(c: char) {
    '0' <= c <= '9' || ('A' <= c <= 'Z' && c != 'I' && c != 'L' && c != 'O' && c != 'U')
  }

  predicate Canonical(s: string) {
    |s| == ULID_LEN && forall i :: 0 <= i < |s| ==> IsCrockford(s[i])
  }

  function MapChar(c: char): (r: Result<char, Error>) {
    if c == 'I' || c == 'i' || c == 'L' || c == 'l' then Success('1')
    else if c == 'O' || c == 'o' then Success('0')
    else if c == 'U' || c == 'u' then Failure(ReservedU)
    else if IsCrockford(c) then Success(c)
    else if 'a' <= c <= 'z' then Success((c as int - 32) as char)
    else Failure(InvalidChar(c))
  }

  function MapChars(s: string): (r: Result<string, Error>)
    decreases |s|
  {
    if s == "" then Success("")
    else
      var n := |s| - 1;
      var front := MapChars(s[..n]);
      if front.Failure? then front
      else
        var last := MapChar(s[n]);
        if last.Failure? then Failure(last.error) else Success(front.value + [last.value])
  }

  function Normalize(s: string): (r: Result<string, Error>) {
    var mapped := MapChars(s);
    if mapped.Failure? then mapped
    else if |mapped.value| != ULID_LEN then Failure(WrongLength(|mapped.value|))
    else mapped
  }

  lemma {:induction false} FailureSticks(s: string, n: nat)
    requires n <= |s| && MapChars(s[..n]).Failure?
    ensures MapChars(s) == MapChars(s[..n])
    decreases |s|
  {
    if n == |s| {
      assert s[..n] == s;
    } else {
      assert s[..|s| - 1][..n] == s[..n];
      FailureSticks(s[..|s| - 1], n);
    }
  }

  /** The loop of the source: it stops at the first character it cannot map. */
  method NormalizeUlid(s: string) returns (r: Result<string, Error>)
    ensures r == Normalize(s)
  {
    var out := "";
    var i := 0;
    while i < |s|
      invariant 0 <= i <= |s|
      invariant MapChars(s[..i]) == Success(out)
    {
      assert s[..i + 1][..i] == s[..i];
      var mapped := MapChar(s[i]);
      if mapped.Failure? {
        FailureSticks(s, i + 1);
        return Failure(mapped.error);
      }
      out := out + [mapped.value];
      i := i + 1;
    }
    assert s[..|s|] == s;
    if |out| != ULID_LEN {
      return Failure(WrongLength(|out|));
    }
    r := Success(out);
  }

  lemma {:induction false} MapCharsPointwise(s: string)
    ensures MapChars(s).Success? <==> forall i :: 0 <= i < |s| ==> MapChar(s[i]).Success?
    ensures MapChars(s).Success? ==>
      && |MapChars(s).value| == |s|
      && forall i :: 0 <= i < |s| ==> MapChar(s[i]) == Success(MapChars(s).value[i])
    decreases |s|
  {
    if s != "" {
      MapCharsPointwise(s[..|s| - 1]);
      assert forall i :: 0 <= i < |s| - 1 ==> s[..|s| - 1][i] == s[i];
    }
  }

  /** Normalisation gives canonical ULIDs, leaves them alone, and so gives nothing else. */
  lemma NormalizeIsProjection(s: string)
    ensures Normalize(s).Success? ==> Canonical(Normalize(s).value)
    ensures Canonical(s) <==> Normalize(s) == Success(s)
  {
    MapCharsPointwise(s);
    if Canonical(s) {
      assert MapChars(s).value == s;
    }
  }

  lemma NormalizeIdempotent(s: string)
    requires Normalize(s).Success?
    ensures Normalize(Normalize(s).value) == Normalize(s)
  {
    NormalizeIsProjection(s);
    NormalizeIsProjection(Normalize(s).value);
  }

  // ----- what the characters stand for

  /** The 32 digits of Crockford's base 32, in the order of their values. */
  const CROCKFORD: string := "0123456789ABCDEFGHJKMNPQRSTVWXYZ"

  /** Read aloud or by hand, `c` is the digit of value `v`: case does not matter, I and L are ones, O is a zero. */
  predicate Writes(c: char, v: nat) {
    && v < 32
    && (CROCKFORD[v] == c || LowerChar(CROCKFORD[v]) == c || (c in "IiLl" && v == 1) || (c in "Oo" && v == 0))
  }

  lemma DigitsOfCrockford(v: nat)
    requires v < 32
    ensures IsCrockford(CROCKFORD[v]) && DigitValue(CROCKFORD[v]) == v
  {
  }

  lemma CrockfordOfDigit(c: char)
    requires IsCrockford(c)
    ensures CROCKFORD[DigitValue(c)] == c
  {
    if c < '5' {
    } else if c <= '9' {
    } else if c < 'F' {
    } else if c < 'K' {
    } else if c < 'S' {
    } else {
    }
  }

  lemma MappedIsWritten(c: char)
    requires MapChar(c).Success?
    ensures IsCrockford(MapChar(c).value) && Writes(c, DigitValue(MapChar(c).value))
  {
    CrockfordOfDigit(MapChar(c).value);
  }

  lemma WrittenIsMapped(c: char, v: nat)
    requires Writes(c, v)
    ensures MapChar(c) == Success(CROCKFORD[v])
  {
    DigitsOfCrockford(v);
  }

  /** The digit that a character is mapped to, and which characters are mapped at all. */
  lemma MapCharIff(c: char, d: char)
    ensures MapChar(c) == Success(d) <==> SameDigit(c, d)
  {
    if MapChar(c) == Success(d) {
      MappedIsWritten(c);
      CrockfordOfDigit(d);
    }
    if v: nat :| Writes(c, v) && d == CROCKFORD[v] {
      WrittenIsMapped(c, v);
    }
  }

  ghost predicate SameDigit(c: char, d: char) {
    exists v: nat :: Writes(c, v) && d == CROCKFORD[v]
  }

  /** An id is normalised to the 26 digits that its characters stand for, and to nothing else. */
  lemma NormalizeKeepsValue(s: string, r: string)
    ensures Normalize(s) == Success(r) <==> |s| == |r| == 26 && forall i :: 0 <= i < |s| ==> SameDigit(s[i], r[i])
  {
    MapCharsPointwise(s);
    forall i | 0 <= i < |s| && i < |r|
      ensures MapChar(s[i]) == Success(r[i]) <==> SameDigit(s[i], r[i])
    {
      MapCharIff(s[i], r[i]);
    }
    if |s| == |r| && forall i :: 0 <= i < |s| ==> SameDigit(s[i], r[i]) {
      assert MapChars(s).value == r;
    }
  }

  ghost predicate Readable(c: char) {
    exists v: nat :: Writes(c, v)
  }

  lemma MapCharFails(c: char)
    ensures MapChar(c).Failure? <==> !Readable(c)
    ensures MapChar(c).Failure? ==> MapChar(c) == Failure(if c in "Uu" then ReservedU else InvalidChar(c))
  {
    if MapChar(c).Success? {
      MappedIsWritten(c);
    } else if v: nat :| Writes(c, v) {
      WrittenIsMapped(c, v);
    }
  }

  /** The error is about the first character that stands for no digit, or else about the length. */
  lemma NormalizeErrors(s: string, i: nat)
    requires i <= |s| && (forall j :: 0 <= j < i ==> Readable(s[j])) && (i < |s| ==> !Readable(s[i]))
    ensures i < |s| ==> Normalize(s) == Failure(if s[i] in "Uu" then ReservedU else InvalidChar(s[i]))
    ensures i == |s| != 26 ==> Normalize(s) == Failure(WrongLength(|s|))
  {
    MapCharsPointwise(s[..i]);
    forall j | 0 <= j < i
      ensures MapChar(s[..i][j]).Success?
    {
      MapCharFails(s[j]);
    }
    if i < |s| {
      MapCharFails(s[i]);
      assert s[..i + 1][..i] == s[..i];
      FailureSticks(s, i + 1);
    } else {
      assert s[..i] == s;
    }
  }

  // ----- order

  function DigitValue(c: char): (v: nat)
    requires IsCrockford(c)
    ensures v < 32
  {
    if c <= '9' then c as int - '0' as int
    else
      var n := c as int - 'A' as int + 10;
      if c < 'I' then n else if c < 'L' then n - 1 else if c < 'O' then n - 2 else if c < 'U' then n - 3 else n - 4
  }

  function Pow32(n: nat): (p: nat)
    ensures p > 0
  {
    if n == 0 then 1 else 32 * Pow32(n - 1)
  }

  /** The number that a string of base-32 digits writes. */
  function Value(s: string): (v: nat)
    requires forall i :: 0 <= i < |s| ==> IsCrockford(s[i])
    decreases |s|
  {
    if s == "" then 0 else DigitValue(s[0]) * Pow32(|s| - 1) + Value(s[1..])
  }

  lemma {:induction false} ValueBound(s: string)
    requires forall i :: 0 <= i < |s| ==> IsCrockford(s[i])
    ensures Value(s) < Pow32(|s|)
    decreases |s|
  {
    if s != "" {
      ValueBound(s[1..]);
      Scale(DigitValue(s[0]), 31, Pow32(|s| - 1));
    }
  }

  lemma Scale(a: nat, b: nat, p: nat)
    requires a <= b
    ensures a * p <= b * p
  {
  }

  lemma DigitOrder(c: char, d: char)
    requires IsCrockford(c) && IsCrockford(d) && c < d
    ensures DigitValue(c) < DigitValue(d)
  {
  }

  lemma Carry(x: nat, y: nat, p: nat, u: nat, v: nat)
    requires x < y && u < p
    ensures x * p + u < y * p + v
  {
    Scale(x + 1, y, p);
    assert (x + 1) * p == x * p + p;
  }

  lemma LeadingDigitDecides(a: string, b: string)
    requires a != "" && |a| == |b| && forall i :: 0 <= i < |a| ==> IsCrockford(a[i]) && IsCrockford(b[i])
    requires a[0] < b[0]
    ensures Value(a) < Value(b)
  {
    ValueBound(a[1..]);
    DigitOrder(a[0], b[0]);
    Carry(DigitValue(a[0]), DigitValue(b[0]), Pow32(|a| - 1), Value(a[1..]), Value(b[1..]));
  }

  /** Comparing canonical ULIDs as strings compares the 130-bit numbers they write. */
  lemma {:induction false} OrderIsNumeric(a: string, b: string)
    requires |a| == |b| && forall i :: 0 <= i < |a| ==> IsCrockford(a[i]) && IsCrockford(b[i])
    ensures Less(a, b) <==> Value(a) < Value(b)
    ensures a == b <==> Value(a) == Value(b)
    decreases |a|
  {
    if a != "" {
      if a[0] < b[0] {
        LeadingDigitDecides(a, b);
      } else if b[0] < a[0] {
        LeadingDigitDecides(b, a);
      } else {
        OrderIsNumeric(a[1..], b[1..]);
        assert a == [a[0]] + a[1..] && b == [b[0]] + b[1..];
      }
    }
  }
}
