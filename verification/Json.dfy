/** The JSON that Messages need: a compact printer of flat objects, with the minimal escapes of
    section 7 of RFC 8259, and a parser of one JSON object that skips over any nested value. */
module Json {
  import opened Strings
  import opened Wrappers
  import Sequences

  /** `JBadStr` is a string with a lone surrogate escape, `JFloat` any number that is not written as
      an integer, `JNested` an object or array; none of them is ever the value of a known field. */
  datatype JValue = JNull | JBool(b: bool) | JInt(n: int) | JFloat | JStr(s: string) | JBadStr | JNested

  datatype Member = Member(name: string, value: JValue)

  // ----- printing

  const HEX: string := "0123456789abcdef"

  function EscapeChar(c: char): (s: string) {
    if c == '\"' then "\\\""
    else if c == '\\' then "\\\\"
    else if c == '\n' then "\\n"
    else if c == '\r' then "\\r"
    else if c == '\t' then "\\t"
    else if c as int == 8 then "\\b"
    else if c as int == 12 then "\\f"
    else if c as int < 0x20 then "\\u00" + [HEX[c as int / 16], HEX[c as int % 16]]
    else [c]
  }

  function Escape(s: string): (e: string)
    decreases |s|
  {
    if s == "" then "" else EscapeChar(s[0]) + Escape(s[1..])
  }

  function PrintString(s: string): (p: string) {
    "\"" + Escape(s) + "\""
  }

  function PrintInt(n: int): (p: string)
    ensures p != ""
  {
    if n < 0 then "-" + Decimal(-n) else Decimal(n)
  }

  predicate Printable(m: Member) {
    m.value.JInt? || m.value.JStr?
  }

  function PrintValue(v: JValue): (p: string)
    requires v.JInt? || v.JStr?
  {
    if v.JInt? then PrintInt(v.n) else PrintString(v.s)
  }

  function PrintMember(m: Member): (p: string)
    requires Printable(m)
  {
    PrintString(m.name) + (":" + PrintValue(m.value))
  }

  /** The members, separated by commas, and the closing brace. */
  function PrintMembers(ms: seq<Member>): (p: string)
    requires forall i :: 0 <= i < |ms| ==> Printable(ms[i])
    decreases |ms|
  {
    if ms == [] then "}"
    else if |ms| == 1 then PrintMember(ms[0]) + "}"
    else PrintMember(ms[0]) + "," + PrintMembers(ms[1..])
  }

  function PrintObject(ms: seq<Member>): (p: string)
    requires forall i :: 0 <= i < |ms| ==> Printable(ms[i])
  {
    "{" + PrintMembers(ms)
  }

  // ----- parsing

  predicate IsSpace(c: char) {
    c == ' ' || c == '\t' || c == '\n' || c == '\r'
  }

  function SkipSpace(s: string): (r: string)
    ensures |r| <= |s|
    decreases |s|
  {
    if s != "" && IsSpace(s[0]) then SkipSpace(s[1..]) else s
  }

  function HexValue(c: char): (v: Option<nat>)
    ensures v.Some? ==> v.value < 16
  {
    if '0' <= c <= '9' then Some(c as int - '0' as int)
    else if 'a' <= c <= 'f' then Some(c as int - 'a' as int + 10)
    else if 'A' <= c <= 'F' then Some(c as int - 'A' as int + 10)
    else None
  }

  /** Four hexadecimal digits at the front. */
  function Hex4(s: string): (v: Option<nat>)
    ensures v.Some? ==> |s| >= 4 && v.value < 0x10000
  {
    if |s| < 4 then None
    else
      var a, b, c, d := HexValue(s[0]), HexValue(s[1]), HexValue(s[2]), HexValue(s[3]);
      if a.None? || b.None? || c.None? || d.None? then None
      else Some(4096 * a.value + 256 * b.value + 16 * c.value + d.value)
  }

  function SimpleEscape(c: char): (e: Option<char>) {
    if c == '\"' || c == '\\' || c == '/' then Some(c)
    else if c == 'n' then Some('\n')
    else if c == 'r' then Some('\r')
    else if c == 't' then Some('\t')
    else if c == 'b' then Some(8 as char)
    else if c == 'f' then Some(12 as char)
    else None
  }

  /** One unit inside a string: a character (or a bad surrogate) and how much text it takes. */
  datatype Unit = Unit(c: Option<char>, length: nat)

  /** The unit at the front of `s`; `None` if `s` cannot continue a string. */
  function ParseUnit(s: string): (r: Option<Unit>)
    requires s != ""
    ensures r.Some? ==> 1 <= r.value.length <= |s|
  {
    if s[0] as int < 0x20 || s[0] == '\"' then None
    else if s[0] != '\\' then Some(Unit(Some(s[0]), 1))
    else if |s| < 2 then None
    else if s[1] != 'u' then
      var e := SimpleEscape(s[1]);
      if e.None? then None else Some(Unit(e, 2))
    else
      var h := Hex4(s[2..]);
      if h.None? then None
      else if h.value < 0xD800 || 0xE000 <= h.value then Some(Unit(Some(h.value as char), 6))
      else
        var low := if h.value < 0xDC00 && |s| >= 8 && s[6] == '\\' && s[7] == 'u' then Hex4(s[8..]) else None;
        if low.Some? && 0xDC00 <= low.value < 0xE000
        then Some(Unit(Some((0x10000 + (h.value - 0xD800) * 0x400 + (low.value - 0xDC00)) as char), 12))
        else Some(Unit(None, 6))
  }

  /** The rest of a string after its opening quote, and what follows the closing quote. */
  function ParseString(s: string): (r: Option<(JValue, string)>)
    ensures r.Some? ==> |r.value.1| < |s| && (r.value.0.JStr? || r.value.0.JBadStr?)
    decreases |s|
  {
    if s == "" then None
    else if s[0] == '\"' then Some((JStr(""), s[1..]))
    else
      var u := ParseUnit(s);
      if u.None? then None
      else
        var rest := ParseString(s[u.value.length..]);
        if rest.None? then None
        else if u.value.c.None? || rest.value.0.JBadStr? then Some((JBadStr, rest.value.1))
        else Some((JStr([u.value.c.value] + rest.value.0.s), rest.value.1))
  }

  /** The length of the longest prefix of digits. */
  function CountDigits(s: string): (n: nat)
    ensures n <= |s| && forall i :: 0 <= i < n ==> IsDigit(s[i])
    decreases |s|
  {
    if s != "" && IsDigit(s[0]) then 1 + CountDigits(s[1..]) else 0
  }

  /** What follows a fraction; `None` if a point is not followed by digits. */
  function SkipFraction(s: string): (r: Option<string>)
    ensures r.Some? ==> |r.value| <= |s|
  {
    if s == "" || s[0] != '.' then Some(s)
    else
      var n := CountDigits(s[1..]);
      if n == 0 then None else Some(s[n + 1..])
  }

  function SkipExponent(s: string): (r: Option<string>)
    ensures r.Some? ==> |r.value| <= |s|
  {
    if s == "" || (s[0] != 'e' && s[0] != 'E') then Some(s)
    else
      var t := if |s| >= 2 && (s[1] == '+' || s[1] == '-') then s[2..] else s[1..];
      var n := CountDigits(t);
      if n == 0 then None else Some(t[n..])
  }

  function Signed(n: int, negative: bool): int {
    if negative then -n else n
  }

  /** An unsigned number at the front, and the sign it came with. */
  function ParseNumber(s: string, negative: bool): (r: Option<(JValue, string)>)
    ensures r.Some? ==> |r.value.1| < |s|
  {
    var n := CountDigits(s);
    if n == 0 || (s[0] == '0' && n > 1) then None
    else
      var fraction := SkipFraction(s[n..]);
      if fraction.None? then None
      else
        var exponent := SkipExponent(fraction.value);
        if exponent.None? then None
        else if exponent.value != s[n..] || (negative && DecimalValue(s[..n]) == 0)
        then Some((JFloat, exponent.value))
        else Some((JInt(Signed(DecimalValue(s[..n]), negative)), exponent.value))
  }

  function ParseLiteral(s: string, word: string, v: JValue): (r: Option<(JValue, string)>)
    requires word != ""
    ensures r.Some? ==> |r.value.1| < |s|
  {
    if word <= s then Some((v, s[|word|..])) else None
  }

  function ParseValue(s: string): (r: Option<(JValue, string)>)
    ensures r.Some? ==> |r.value.1| < |s|
    decreases |s|, 1
  {
    var t := SkipSpace(s);
    if t == "" then None
    else if t[0] == '\"' then ParseString(t[1..])
    else if t[0] == '-' then ParseNumber(t[1..], true)
    else if IsDigit(t[0]) then ParseNumber(t, false)
    else if t[0] == 't' then ParseLiteral(t, "true", JBool(true))
    else if t[0] == 'f' then ParseLiteral(t, "false", JBool(false))
    else if t[0] == 'n' then ParseLiteral(t, "null", JNull)
    else if t[0] == '{' then
      var ms := ParseMembers(t[1..]);
      if ms.None? then None else Some((JNested, ms.value.1))
    else if t[0] == '[' then
      var rest := ParseElements(t[1..]);
      if rest.None? then None else Some((JNested, rest.value))
    else None
  }

  /** After an opening brace: the members and what follows the closing brace. */
  function ParseMembers(s: string): (r: Option<(seq<(JValue, JValue)>, string)>)
    ensures r.Some? ==> |r.value.1| < |s|
    decreases |s|, 3
  {
    var t := SkipSpace(s);
    if t != "" && t[0] == '}' then Some(([], t[1..])) else ParseMoreMembers(s)
  }

  /** One member at least. */
  function ParseMoreMembers(s: string): (r: Option<(seq<(JValue, JValue)>, string)>)
    ensures r.Some? ==> |r.value.1| < |s|
    decreases |s|, 2
  {
    var t := SkipSpace(s);
    if t == "" || t[0] != '\"' then None
    else
      var key := ParseString(t[1..]);
      if key.None? then None
      else
        var colon := SkipSpace(key.value.1);
        if colon == "" || colon[0] != ':' then None
        else
          var value := ParseValue(colon[1..]);
          if value.None? then None
          else
            var sep := SkipSpace(value.value.1);
            if sep == "" then None
            else if sep[0] == '}' then Some(([(key.value.0, value.value.0)], sep[1..]))
            else if sep[0] != ',' then None
            else
              var more := ParseMoreMembers(sep[1..]);
              if more.None? then None
              else Some(([(key.value.0, value.value.0)] + more.value.0, more.value.1))
  }

  /** After an opening bracket: what follows the closing bracket. */
  function ParseElements(s: string): (r: Option<string>)
    ensures r.Some? ==> |r.value| < |s|
    decreases |s|, 3
  {
    var t := SkipSpace(s);
    if t != "" && t[0] == ']' then Some(t[1..]) else ParseMoreElements(s)
  }

  function ParseMoreElements(s: string): (r: Option<string>)
    ensures r.Some? ==> |r.value| < |s|
    decreases |s|, 2
  {
    var value := ParseValue(s);
    if value.None? then None
    else
      var sep := SkipSpace(value.value.1);
      if sep == "" then None
      else if sep[0] == ']' then Some(sep[1..])
      else if sep[0] != ',' then None
      else ParseMoreElements(sep[1..])
  }

  /** A whole text that is one object; its names must be readable strings. */
  function ParseObject(s: string): (r: Option<seq<Member>>) {
    var t := SkipSpace(s);
    if t == "" || t[0] != '{' then None
    else
      var ms := ParseMembers(t[1..]);
      if ms.None? || SkipSpace(ms.value.1) != "" then None
      else if exists i :: 0 <= i < |ms.value.0| && !ms.value.0[i].0.JStr? then None
      else Some(Named(ms.value.0))
  }

  function Named(p: seq<(JValue, JValue)>): (ms: seq<Member>)
    requires forall i :: 0 <= i < |p| ==> p[i].0.JStr?
  {
    seq(|p|, i requires 0 <= i < |p| => Member(p[i].0.s, p[i].1))
  }

  // ----- parsing undoes printing

  lemma UnitOfEscape(c: char, rest: string)
    ensures ParseUnit(EscapeChar(c) + rest) == Some(Unit(Some(c), |EscapeChar(c)|))
  {
    var e := EscapeChar(c);
    var s := e + rest;
    if c as int < 0x20 && |e| == 6 {
      var high, low := c as int / 16, c as int % 16;
      assert s[2..][0] == '0' && s[2..][1] == '0' && s[2..][2] == HEX[high] && s[2..][3] == HEX[low];
      HexDigit(high);
      HexDigit(low);
      assert Hex4(s[2..]) == Some(c as int);
    }
  }

  lemma HexDigit(v: nat)
    requires v < 16
    ensures HexValue(HEX[v]) == Some(v)
  {
  }

  lemma EscapeIsNotQuote(c: char)
    ensures EscapeChar(c)[0] != '"'
  {
  }

  lemma StringStep(s: string, c: char, k: nat, t: string, rest: string)
    requires s != "" && s[0] != '\"' && 1 <= k <= |s| && ParseUnit(s) == Some(Unit(Some(c), k))
    requires ParseString(s[k..]) == Some((JStr(t), rest))
    ensures ParseString(s) == Some((JStr([c] + t), rest))
  {
  }

  lemma CharRoundTrip(c: char, more: string, t: string, rest: string)
    requires ParseString(more) == Some((JStr(t), rest))
    ensures ParseString(EscapeChar(c) + more) == Some((JStr([c] + t), rest))
  {
    var e := EscapeChar(c);
    EscapeIsNotQuote(c);
    UnitOfEscape(c, more);
    assert (e + more)[|e|..] == more && (e + more)[0] == e[0];
    StringStep(e + more, c, |e|, t, rest);
  }

  lemma {:induction false} StringRoundTrip(s: string, rest: string)
    ensures ParseString(Escape(s) + ("\"" + rest)) == Some((JStr(s), rest))
    decreases |s|
  {
    if s == "" {
      assert Escape(s) + ("\"" + rest) == "\"" + rest && ("\"" + rest)[1..] == rest;
    } else {
      StringRoundTrip(s[1..], rest);
      CharRoundTrip(s[0], Escape(s[1..]) + ("\"" + rest), s[1..], rest);
      Sequences.Associate(EscapeChar(s[0]), Escape(s[1..]), "\"" + rest);
      assert s == [s[0]] + s[1..];
    }
  }

  /** Text that ends a number: it does not start like the rest of one. */
  predicate EndsNumber(rest: string) {
    rest == "" || !(IsDigit(rest[0]) || rest[0] == '.' || rest[0] == 'e' || rest[0] == 'E')
  }

  lemma {:induction false} CountAllDigits(digits: string, rest: string)
    requires (forall i :: 0 <= i < |digits| ==> IsDigit(digits[i])) && EndsNumber(rest)
    ensures CountDigits(digits + rest) == |digits|
    decreases |digits|
  {
    if digits == "" {
      assert digits + rest == rest;
    } else {
      assert (digits + rest)[1..] == digits[1..] + rest;
      CountAllDigits(digits[1..], rest);
    }
  }

  lemma NumberRoundTrip(n: nat, negative: bool, rest: string)
    requires EndsNumber(rest) && (negative ==> n > 0)
    ensures ParseNumber(Decimal(n) + rest, negative) == Some((JInt(Signed(n, negative)), rest))
  {
    var digits := Decimal(n);
    var s := digits + rest;
    CountAllDigits(digits, rest);
    assert s[..|digits|] == digits && s[|digits|..] == rest;
    DecimalInverse(n);
    if n > 0 {
      NoLeadingZero(n);
    } else {
      assert digits == [Digit(0)];
    }
  }

  lemma StartsWithMinus(t: string)
    ensures ParseValue("-" + t) == ParseNumber(t, true)
  {
    assert ("-" + t)[0] == '-' && ("-" + t)[1..] == t;
  }

  lemma StartsWithDigit(s: string)
    requires s != "" && IsDigit(s[0])
    ensures ParseValue(s) == ParseNumber(s, false)
  {
  }

  lemma StartsWithQuote(t: string)
    ensures ParseValue("\"" + t) == ParseString(t)
  {
    assert ("\"" + t)[0] == '\"' && ("\"" + t)[1..] == t;
  }

  lemma IntRoundTrip(n: int, rest: string)
    requires EndsNumber(rest)
    ensures ParseValue(PrintInt(n) + rest) == Some((JInt(n), rest))
  {
    if n < 0 {
      NumberRoundTrip(-n, true, rest);
      StartsWithMinus(Decimal(-n) + rest);
      Sequences.Associate("-", Decimal(-n), rest);
    } else {
      NumberRoundTrip(n, false, rest);
      StartsWithDigit(Decimal(n) + rest);
    }
  }

  lemma QuotedRoundTrip(s: string, rest: string)
    ensures ParseValue(PrintString(s) + rest) == Some((JStr(s), rest))
  {
    StringRoundTrip(s, rest);
    StartsWithQuote(Escape(s) + ("\"" + rest));
    QuotedText(Escape(s), rest);
  }

  lemma QuotedText(e: string, rest: string)
    ensures "\"" + e + "\"" + rest == "\"" + (e + ("\"" + rest))
  {
  }

  lemma ValueRoundTrip(v: JValue, rest: string)
    requires (v.JInt? || v.JStr?) && EndsNumber(rest)
    ensures ParseValue(PrintValue(v) + rest) == Some((v, rest))
  {
    if v.JInt? {
      IntRoundTrip(v.n, rest);
    } else {
      QuotedRoundTrip(v.s, rest);
    }
  }

  lemma NoSpace(c: char, rest: string)
    requires !IsSpace(c)
    ensures SkipSpace([c] + rest) == [c] + rest && ([c] + rest)[0] == c && ([c] + rest)[1..] == rest
  {
  }

  /** How the parser moves over the last member, whatever the text is. */
  lemma MoveOverLast(s: string, key: JValue, after: string, value: JValue, rest: string)
    requires s != "" && s[0] == '\"' && ParseString(s[1..]) == Some((key, ":" + after))
    requires ParseValue(after) == Some((value, "}" + rest))
    ensures ParseMoreMembers(s) == Some(([(key, value)], rest))
  {
    NoSpace(':', after);
    NoSpace('}', rest);
    assert SkipSpace(s) == s;
  }

  /** And over an earlier one. */
  lemma MoveOverEarlier(s: string, key: JValue, after: string, value: JValue, more: string,
                        parsed: seq<(JValue, JValue)>, rest: string)
    requires s != "" && s[0] == '\"' && ParseString(s[1..]) == Some((key, ":" + after))
    requires ParseValue(after) == Some((value, "," + more)) && ParseMoreMembers(more) == Some((parsed, rest))
    ensures ParseMoreMembers(s) == Some(([(key, value)] + parsed, rest))
  {
    NoSpace(':', after);
    NoSpace(',', more);
    assert SkipSpace(s) == s;
  }

  lemma MemberText(m: Member, tail: string)
    requires Printable(m)
    ensures PrintMember(m) + tail == "\"" + (Escape(m.name) + ("\"" + (":" + (PrintValue(m.value) + tail))))
  {
    var v := PrintValue(m.value);
    Sequences.Associate(PrintString(m.name), ":" + v, tail);
    Sequences.Associate(":", v, tail);
    QuotedText(Escape(m.name), ":" + (v + tail));
  }

  lemma AfterQuote(t: string)
    ensures ("\"" + t)[0] == '\"' && ("\"" + t)[1..] == t
  {
  }

  function Parsed(ms: seq<Member>): (p: seq<(JValue, JValue)>)
    decreases |ms|
  {
    if ms == [] then [] else [(JStr(ms[0].name), ms[0].value)] + Parsed(ms[1..])
  }

  lemma LastMember(m: Member, rest: string)
    requires Printable(m)
    ensures ParseMoreMembers(PrintMember(m) + "}" + rest) == Some(([(JStr(m.name), m.value)], rest))
  {
    var tail := "}" + rest;
    var s := PrintMember(m) + tail;
    MemberText(m, tail);
    AfterQuote(Escape(m.name) + ("\"" + (":" + (PrintValue(m.value) + tail))));
    StringRoundTrip(m.name, ":" + (PrintValue(m.value) + tail));
    ValueRoundTrip(m.value, tail);
    MoveOverLast(s, JStr(m.name), PrintValue(m.value) + tail, m.value, rest);
    Sequences.Associate(PrintMember(m), "}", rest);
  }

  lemma EarlierMember(m: Member, more: string, rest: string, parsed: seq<(JValue, JValue)>)
    requires Printable(m) && ParseMoreMembers(more) == Some((parsed, rest))
    ensures ParseMoreMembers(PrintMember(m) + ("," + more)) == Some(([(JStr(m.name), m.value)] + parsed, rest))
  {
    var tail := "," + more;
    var s := PrintMember(m) + tail;
    MemberText(m, tail);
    AfterQuote(Escape(m.name) + ("\"" + (":" + (PrintValue(m.value) + tail))));
    StringRoundTrip(m.name, ":" + (PrintValue(m.value) + tail));
    ValueRoundTrip(m.value, tail);
    MoveOverEarlier(s, JStr(m.name), PrintValue(m.value) + tail, m.value, more, parsed, rest);
  }

  /** Printed members parse back to themselves. */
  lemma {:induction false} MembersRoundTrip(ms: seq<Member>, rest: string)
    requires ms != [] && forall i :: 0 <= i < |ms| ==> Printable(ms[i])
    ensures ParseMoreMembers(PrintMembers(ms) + rest) == Some((Parsed(ms), rest))
    decreases |ms|
  {
    if |ms| == 1 {
      LastMember(ms[0], rest);
      assert Parsed(ms[1..]) == [];
      assert Parsed(ms) == [(JStr(ms[0].name), ms[0].value)];
    } else {
      MembersRoundTrip(ms[1..], rest);
      EarlierMember(ms[0], PrintMembers(ms[1..]) + rest, rest, Parsed(ms[1..]));
      Sequences.Associate(PrintMember(ms[0]) + ",", PrintMembers(ms[1..]), rest);
      Sequences.Associate(PrintMember(ms[0]), ",", PrintMembers(ms[1..]) + rest);
    }
  }

  lemma {:induction false} ParsedNames(ms: seq<Member>)
    ensures |Parsed(ms)| == |ms|
    ensures forall i :: 0 <= i < |ms| ==> Parsed(ms)[i] == (JStr(ms[i].name), ms[i].value)
    decreases |ms|
  {
    if ms != [] {
      ParsedNames(ms[1..]);
    }
  }

  lemma ObjectRoundTrip(ms: seq<Member>)
    requires ms != [] && forall i :: 0 <= i < |ms| ==> Printable(ms[i])
    ensures ParseObject(PrintObject(ms)) == Some(ms)
  {
    var p := PrintMembers(ms);
    MembersRoundTrip(ms, "");
    assert p + "" == p && ("{" + p)[1..] == p;
    FirstIsQuote(ms);
    ParsedNames(ms);
    WholeObject("{" + p, Parsed(ms), ms);
  }

  lemma WholeObject(s: string, parsed: seq<(JValue, JValue)>, ms: seq<Member>)
    requires s != "" && s[0] == '{' && ParseMembers(s[1..]) == Some((parsed, ""))
    requires |parsed| == |ms| && forall i :: 0 <= i < |ms| ==> parsed[i] == (JStr(ms[i].name), ms[i].value)
    ensures ParseObject(s) == Some(ms)
  {
    assert forall i :: 0 <= i < |parsed| ==> parsed[i].0.JStr?;
    forall i | 0 <= i < |ms|
      ensures Named(parsed)[i] == ms[i]
    {
      assert parsed[i] == (JStr(ms[i].name), ms[i].value);
    }
    assert Named(parsed) == ms;
  }

  lemma FirstIsQuote(ms: seq<Member>)
    requires ms != [] && forall i :: 0 <= i < |ms| ==> Printable(ms[i])
    ensures PrintMembers(ms) != "" && PrintMembers(ms)[0] == '"'
  {
  }

  // ----- no raw control characters

  lemma {:induction false} EscapeHasNoControl(s: string)
    ensures forall i :: 0 <= i < |Escape(s)| ==> Escape(s)[i] as int >= 0x20
    decreases |s|
  {
    if s != "" {
      EscapeHasNoControl(s[1..]);
      CharHasNoControl(s[0]);
    }
  }

  lemma CharHasNoControl(c: char)
    ensures forall i :: 0 <= i < |EscapeChar(c)| ==> EscapeChar(c)[i] as int >= 0x20
  {
  }

  /** What is printed is one line. */
  lemma {:induction false} PrintedHasNoControl(ms: seq<Member>)
    requires forall i :: 0 <= i < |ms| ==> Printable(ms[i])
    ensures forall i :: 0 <= i < |PrintMembers(ms)| ==> PrintMembers(ms)[i] as int >= 0x20
    decreases |ms|
  {
    if ms != [] {
      assert Printable(ms[0]);
      EscapeHasNoControl(ms[0].name);
      if ms[0].value.JStr? {
        EscapeHasNoControl(ms[0].value.s);
      }
      assert forall i :: 0 <= i < |PrintMember(ms[0])| ==> PrintMember(ms[0])[i] as int >= 0x20;
      PrintedHasNoControl(ms[1..]);
    }
  }

  // ----- a value is shorter than the text it stands in

  lemma {:induction false} StringFits(s: string)
    requires ParseString(s).Some? && ParseString(s).value.0.JStr?
    ensures |ParseString(s).value.0.s| < |s|
    decreases |s|
  {
    if s[0] != '\"' {
      StringFits(s[ParseUnit(s).value.length..]);
    }
  }

  lemma ValueFits(s: string)
    requires ParseValue(s).Some? && ParseValue(s).value.0.JStr?
    ensures |ParseValue(s).value.0.s| < |s|
  {
    var t := SkipSpace(s);
    if t[0] == '\"' {
      StringFits(t[1..]);
    }
  }

  lemma {:induction false} MembersFit(s: string)
    requires ParseMoreMembers(s).Some?
    ensures forall m :: m in ParseMoreMembers(s).value.0 && m.1.JStr? ==> |m.1.s| < |s|
    decreases |s|
  {
    var key := ParseString(SkipSpace(s)[1..]);
    var after := SkipSpace(key.value.1)[1..];
    if ParseValue(after).value.0.JStr? {
      ValueFits(after);
    }
    var sep := SkipSpace(ParseValue(after).value.1);
    if sep[0] == ',' {
      MembersFit(sep[1..]);
    }
  }

  /** No text carries itself, or anything longer, as a string. */
  lemma ObjectFits(s: string)
    requires ParseObject(s).Some?
    ensures forall m :: m in ParseObject(s).value && m.value.JStr? ==> |m.value.s| < |s|
  {
    var t := SkipSpace(s)[1..];
    if ParseMembers(t) == ParseMoreMembers(t) {
      MembersFit(t);
    }
  }
}
