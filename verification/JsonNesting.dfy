/** The rest of the syntax of RFC 8259 that a record may carry in fields nobody knows: numbers of any form, lists and
    objects nested in each other are each skipped whole; and characters may be escaped by number in either case. */
module JsonNesting {
  import opened Json
  import opened Strings
  import opened Wrappers
  import Sequences
  import JsonSpacing

  // ----- numbers

  predicate Digits(s: string) {
    s != "" && forall i :: 0 <= i < |s| ==> IsDigit(s[i])
  }

  /** A fraction, with its point. */
  predicate IsFraction(s: string) {
    s == "" || (s[0] == '.' && Digits(s[1..]))
  }

  /** An exponent, with its letter and sign. */
  predicate IsExponent(s: string) {
    s == "" || ((s[0] == 'e' || s[0] == 'E')
                && (Digits(s[1..]) || (|s| > 2 && (s[1] == '+' || s[1] == '-') && Digits(s[2..]))))
  }

  predicate NotDigit(s: string) {
    s == "" || !IsDigit(s[0])
  }

  lemma {:induction false} CountAll(digits: string, rest: string)
    requires (forall i :: 0 <= i < |digits| ==> IsDigit(digits[i])) && NotDigit(rest)
    ensures CountDigits(digits + rest) == |digits|
    decreases |digits|
  {
    if digits == "" {
      assert digits + rest == rest;
    } else {
      assert (digits + rest)[1..] == digits[1..] + rest;
      CountAll(digits[1..], rest);
    }
  }

  lemma FractionSkipped(f: string, rest: string)
    requires IsFraction(f) && NotDigit(rest) && (rest == "" || rest[0] != '.')
    ensures SkipFraction(f + rest) == Some(rest)
  {
    if f == "" {
      assert f + rest == rest;
    } else {
      assert (f + rest)[1..] == f[1..] + rest && (f + rest)[0] == '.';
      CountAll(f[1..], rest);
      assert (f + rest)[|f|..] == rest;
    }
  }

  lemma DigitsSkipped(letter: string, digits: string, rest: string)
    requires Digits(digits) && NotDigit(rest) && |letter| >= 1
    ensures var t := (letter + digits + rest)[|letter|..];
      t == digits + rest && CountDigits(t) == |digits| && t[|digits|..] == rest
  {
    assert (letter + digits + rest)[|letter|..] == digits + rest;
    CountAll(digits, rest);
  }

  lemma ExponentSkipped(e: string, rest: string)
    requires IsExponent(e) && NotDigit(rest) && (rest == "" || (rest[0] != 'e' && rest[0] != 'E'))
    ensures SkipExponent(e + rest) == Some(rest)
  {
    if e == "" {
      assert e + rest == rest;
    } else if Digits(e[1..]) {
      assert e == e[..1] + e[1..] && IsDigit(e[1..][0]);
      DigitsSkipped(e[..1], e[1..], rest);
      assert (e + rest)[1] == e[1] == e[1..][0] && (e + rest)[0] == e[0];
    } else {
      assert e == e[..2] + e[2..];
      DigitsSkipped(e[..2], e[2..], rest);
      assert (e + rest)[1] == e[1] && (e + rest)[0] == e[0];
    }
  }

  /** A number is the whole of its text: an integer if it has neither fraction nor exponent. */
  lemma NumberSkipped(n: nat, negative: bool, f: string, e: string, rest: string)
    requires IsFraction(f) && IsExponent(e) && EndsNumber(rest)
    ensures ParseNumber(Decimal(n) + (f + (e + rest)), negative) ==
            Some((if f == "" && e == "" && !(negative && n == 0) then JInt(Signed(n, negative)) else JFloat, rest))
  {
    var tail := f + (e + rest);
    var s := Decimal(n) + tail;
    AfterDigits(f, e, rest);
    CountAll(Decimal(n), tail);
    assert s[..|Decimal(n)|] == Decimal(n) && s[|Decimal(n)|..] == tail;
    FractionSkipped(f, e + rest);
    ExponentSkipped(e, rest);
    DecimalInverse(n);
    if n > 0 {
      NoLeadingZero(n);
    } else {
      assert Decimal(n) == [Digit(0)];
    }
    LengthTells(f, e, rest);
  }

  lemma AfterDigits(f: string, e: string, rest: string)
    requires IsFraction(f) && IsExponent(e) && EndsNumber(rest)
    ensures NotDigit(f + (e + rest)) && NotDigit(e + rest) && (e + rest == "" || (e + rest)[0] != '.')
  {
    if e != "" {
      assert (e + rest)[0] == e[0];
    } else {
      assert e + rest == rest;
    }
    if f != "" {
      assert (f + (e + rest))[0] == f[0];
    } else {
      assert f + (e + rest) == e + rest;
    }
  }

  lemma LengthTells(f: string, e: string, rest: string)
    ensures rest == f + (e + rest) <==> f == "" && e == ""
  {
    assert |f + (e + rest)| == |f| + |e| + |rest|;
    if f == "" && e == "" {
      assert f + (e + rest) == rest;
    }
  }

  // ----- nesting

  datatype Tree =
    | Leaf(v: JValue)
    | Number(n: nat, negative: bool, fraction: string, exponent: string)
    | List(items: Trees)
    | Object(fields: Fields)

  datatype Trees = NoMore | More(first: Tree, others: Trees)

  datatype Fields = NoField | Field(name: string, value: Tree, others: Fields)

  predicate TreeOk(t: Tree) {
    match t
    case Leaf(v) => JsonSpacing.Scalar(v)
    case Number(_, _, fraction, exponent) => IsFraction(fraction) && IsExponent(exponent)
    case List(items) => TreesOk(items)
    case Object(fields) => FieldsOk(fields)
  }

  predicate TreesOk(ts: Trees) {
    ts.More? ==> TreeOk(ts.first) && TreesOk(ts.others)
  }

  predicate FieldsOk(fs: Fields) {
    fs.Field? ==> TreeOk(fs.value) && FieldsOk(fs.others)
  }

  function TreeText(t: Tree): (s: string)
    requires TreeOk(t)
  {
    match t
    case Leaf(v) => JsonSpacing.ScalarText(v)
    case Number(n, negative, fraction, exponent) =>
      (if negative then "-" else "") + (Decimal(n) + (fraction + exponent))
    case List(items) => "[" + ItemsText(items)
    case Object(fields) => "{" + FieldsText(fields)
  }

  /** The items of a list and its closing bracket. */
  function ItemsText(ts: Trees): (s: string)
    requires TreesOk(ts)
  {
    match ts
    case NoMore => "]"
    case More(first, others) => TreeText(first) + (if others == NoMore then "]" else "," + ItemsText(others))
  }

  /** The members of an object and its closing brace. */
  function FieldsText(fs: Fields): (s: string)
    requires FieldsOk(fs)
  {
    match fs
    case NoField => "}"
    case Field(name, value, others) =>
      "\"" + (Escape(name) + ("\"" + (":" + (TreeText(value)
      + (if others == NoField then "}" else "," + FieldsText(others))))))
  }

  /** What the parser makes of it. */
  function Meaning(t: Tree): (v: JValue) {
    match t
    case Leaf(v) => v
    case Number(n, negative, fraction, exponent) =>
      if fraction == "" && exponent == "" && !(negative && n == 0) then JInt(Signed(n, negative)) else JFloat
    case _ => JNested
  }

  function Meanings(fs: Fields): (ms: seq<(JValue, JValue)>) {
    match fs
    case NoField => []
    case Field(name, value, others) => [(JStr(name), Meaning(value))] + Meanings(others)
  }

  /** The first character of a value. */
  predicate Starts(c: char) {
    c == '"' || c == '-' || IsDigit(c) || c == 't' || c == 'f' || c == 'n' || c == '{' || c == '['
  }

  lemma TreeStarts(t: Tree)
    requires TreeOk(t)
    ensures TreeText(t) != "" && Starts(TreeText(t)[0])
  {
    match t {
      case Leaf(v) => {
        if v.JInt? && v.n >= 0 {
          assert IsDigit(Decimal(v.n)[0]);
        }
      }
      case Number(n, negative, fraction, exponent) => {
        assert IsDigit(Decimal(n)[0]);
        assert (Decimal(n) + (fraction + exponent))[0] == Decimal(n)[0];
        if !negative {
          assert "" + (Decimal(n) + (fraction + exponent)) == Decimal(n) + (fraction + exponent);
        }
      }
      case _ =>
    }
  }

  lemma NoSpaceFirst(s: string)
    requires s != "" && Starts(s[0])
    ensures SkipSpace(s) == s && s[0] != ']' && s[0] != '}'
  {
  }

  lemma NumberText(digits: string, f: string, e: string, rest: string)
    ensures digits + (f + e) + rest == digits + (f + (e + rest))
    ensures "-" + (digits + (f + e)) + rest == "-" + (digits + (f + (e + rest)))
    ensures "" + (digits + (f + e)) + rest == "" + (digits + (f + (e + rest)))
  {
  }

  lemma DigitsStart(digits: string, tail: string)
    requires Digits(digits)
    ensures digits + tail != "" && IsDigit((digits + tail)[0])
  {
    assert (digits + tail)[0] == digits[0];
  }

  lemma NumberTreeText(t: Tree, rest: string)
    requires t.Number? && TreeOk(t)
    ensures TreeText(t) + rest ==
            (if t.negative then "-" else "") + (Decimal(t.n) + (t.fraction + (t.exponent + rest)))
  {
    NumberText(Decimal(t.n), t.fraction, t.exponent, rest);
  }

  lemma ValueOfNumber(t: Tree, rest: string)
    requires t.Number? && TreeOk(t) && EndsNumber(rest)
    ensures ParseValue(TreeText(t) + rest) == Some((Meaning(t), rest))
  {
    var s := Decimal(t.n) + (t.fraction + (t.exponent + rest));
    NumberSkipped(t.n, t.negative, t.fraction, t.exponent, rest);
    NumberTreeText(t, rest);
    if t.negative {
      StartsWithMinus(s);
    } else {
      assert "" + s == s;
      UnsignedStarts(Decimal(t.n), t.fraction + (t.exponent + rest));
    }
  }

  lemma UnsignedStarts(digits: string, tail: string)
    requires Digits(digits)
    ensures ParseValue(digits + tail) == ParseNumber(digits + tail, false)
  {
    DigitsStart(digits, tail);
    StartsWithDigit(digits + tail);
  }

  lemma OpenBracket(t: string)
    ensures ParseValue("[" + t) == if ParseElements(t).None? then None else Some((JNested, ParseElements(t).value))
  {
    assert ("[" + t)[0] == '[' && ("[" + t)[1..] == t && SkipSpace("[" + t) == "[" + t;
  }

  lemma OpenBrace(t: string)
    ensures ParseValue("{" + t) == if ParseMembers(t).None? then None else Some((JNested, ParseMembers(t).value.1))
  {
    assert ("{" + t)[0] == '{' && ("{" + t)[1..] == t && SkipSpace("{" + t) == "{" + t;
  }

  lemma CloseFirst(c: char, rest: string)
    requires c == ']' || c == '}'
    ensures SkipSpace([c] + rest) == [c] + rest && ([c] + rest)[0] == c && ([c] + rest)[1..] == rest
  {
  }

  /** Any value in this syntax is moved over as a whole, however deep it is nested. */
  lemma {:induction false} TreeParses(t: Tree, rest: string)
    requires TreeOk(t) && EndsNumber(rest)
    ensures ParseValue(TreeText(t) + rest) == Some((Meaning(t), rest))
    decreases t, 1
  {
    match t {
      case Leaf(v) => JsonSpacing.ScalarRoundTrip(v, rest);
      case Number(_, _, _, _) => ValueOfNumber(t, rest);
      case List(items) => {
        ItemsParse(items, rest);
        Sequences.Associate("[", ItemsText(items), rest);
        OpenBracket(ItemsText(items) + rest);
      }
      case Object(fields) => {
        FieldsParse(fields, rest);
        Sequences.Associate("{", FieldsText(fields), rest);
        OpenBrace(FieldsText(fields) + rest);
      }
    }
  }

  lemma LastItem(s: string, v: JValue, rest: string)
    requires ParseValue(s) == Some((v, "]" + rest))
    ensures ParseMoreElements(s) == Some(rest)
  {
    CloseFirst(']', rest);
  }

  lemma EarlierItem(s: string, v: JValue, more: string, rest: string)
    requires ParseValue(s) == Some((v, "," + more)) && ParseMoreElements(more) == Some(rest)
    ensures ParseMoreElements(s) == Some(rest)
  {
    JsonSpacing.Head(',', more);
  }

  lemma FirstItem(text: string, tail: string)
    requires text != "" && Starts(text[0])
    ensures ParseElements(text + tail) == ParseMoreElements(text + tail)
  {
    assert (text + tail)[0] == text[0];
    NoSpaceFirst(text + tail);
  }

  lemma {:induction false} ItemsParse(ts: Trees, rest: string)
    requires TreesOk(ts)
    ensures ParseElements(ItemsText(ts) + rest) == Some(rest)
    ensures ts.More? ==> ParseMoreElements(ItemsText(ts) + rest) == Some(rest)
    decreases ts, 0
  {
    if ts == NoMore {
      CloseFirst(']', rest);
    } else {
      var text := TreeText(ts.first);
      TreeStarts(ts.first);
      if ts.others == NoMore {
        Sequences.Associate(text, "]", rest);
        TreeParses(ts.first, "]" + rest);
        LastItem(text + ("]" + rest), Meaning(ts.first), rest);
        FirstItem(text, "]" + rest);
      } else {
        var more := ItemsText(ts.others);
        ItemsParse(ts.others, rest);
        Sequences.Associate(text, "," + more, rest);
        Sequences.Associate(",", more, rest);
        TreeParses(ts.first, "," + (more + rest));
        EarlierItem(text + ("," + (more + rest)), Meaning(ts.first), more + rest, rest);
        FirstItem(text, "," + (more + rest));
      }
    }
  }

  lemma {:induction false} FieldsParse(fs: Fields, rest: string)
    requires FieldsOk(fs)
    ensures ParseMembers(FieldsText(fs) + rest) == Some((Meanings(fs), rest))
    ensures fs.Field? ==> ParseMoreMembers(FieldsText(fs) + rest) == Some((Meanings(fs), rest))
    decreases fs, 0
  {
    if fs == NoField {
      CloseFirst('}', rest);
    } else if fs.others == NoField {
      TreeParses(fs.value, "}" + rest);
      LastFieldText(fs, TreeText(fs.value), rest);
    } else {
      FieldsParse(fs.others, rest);
      TreeParses(fs.value, "," + (FieldsText(fs.others) + rest));
      EarlierFieldText(fs, TreeText(fs.value), FieldsText(fs.others), rest);
    }
  }

  lemma LastFieldText(fs: Fields, text: string, rest: string)
    requires FieldsOk(fs) && fs.Field? && fs.others == NoField && text == TreeText(fs.value)
    requires ParseValue(text + ("}" + rest)) == Some((Meaning(fs.value), "}" + rest))
    ensures ParseMembers(FieldsText(fs) + rest) == Some((Meanings(fs), rest))
    ensures ParseMoreMembers(FieldsText(fs) + rest) == Some((Meanings(fs), rest))
  {
    var q := Escape(fs.name) + ("\"" + (":" + (text + ("}" + rest))));
    Pieces("\"", Escape(fs.name), "\"", ":", text, "}", rest);
    LastField(fs.name, Meaning(fs.value), text, rest);
    QuoteFirst(q);
    assert Meanings(fs.others) == [];
    assert Meanings(fs) == [(JStr(fs.name), Meaning(fs.value))];
  }

  lemma EarlierFieldText(fs: Fields, text: string, more: string, rest: string)
    requires FieldsOk(fs) && fs.Field? && fs.others != NoField
    requires text == TreeText(fs.value) && more == FieldsText(fs.others)
    requires ParseValue(text + ("," + (more + rest))) == Some((Meaning(fs.value), "," + (more + rest)))
    requires ParseMoreMembers(more + rest) == Some((Meanings(fs.others), rest))
    ensures ParseMembers(FieldsText(fs) + rest) == Some((Meanings(fs), rest))
    ensures ParseMoreMembers(FieldsText(fs) + rest) == Some((Meanings(fs), rest))
  {
    var q := Escape(fs.name) + ("\"" + (":" + (text + ("," + (more + rest)))));
    Pieces("\"", Escape(fs.name), "\"", ":", text, "," + more, rest);
    Sequences.Associate(",", more, rest);
    EarlierField(fs.name, Meaning(fs.value), text, more + rest, Meanings(fs.others), rest);
    QuoteFirst(q);
  }

  lemma QuoteFirst(q: string)
    ensures SkipSpace("\"" + q) == "\"" + q && ("\"" + q)[0] == '\"'
    ensures ParseMembers("\"" + q) == ParseMoreMembers("\"" + q)
  {
  }

  lemma LastField(name: string, v: JValue, text: string, rest: string)
    requires ParseValue(text + ("}" + rest)) == Some((v, "}" + rest))
    ensures ParseMoreMembers("\"" + (Escape(name) + ("\"" + (":" + (text + ("}" + rest)))))) ==
            Some(([(JStr(name), v)], rest))
  {
    var sep := "}" + rest;
    var colon := ":" + (text + sep);
    var q := Escape(name) + ("\"" + colon);
    StringRoundTrip(name, colon);
    QuoteFirst(q);
    JsonSpacing.Head('\"', q);
    JsonSpacing.Head(':', text + sep);
    CloseFirst('}', rest);
    JsonSpacing.OverLast("\"" + q, "\"" + q, JStr(name), colon, colon, v, sep, sep);
  }

  lemma EarlierField(name: string, v: JValue, text: string, more: string, ms: seq<(JValue, JValue)>, rest: string)
    requires ParseValue(text + ("," + more)) == Some((v, "," + more)) && ParseMoreMembers(more) == Some((ms, rest))
    ensures ParseMoreMembers("\"" + (Escape(name) + ("\"" + (":" + (text + ("," + more)))))) ==
            Some(([(JStr(name), v)] + ms, rest))
  {
    var sep := "," + more;
    var colon := ":" + (text + sep);
    var q := Escape(name) + ("\"" + colon);
    StringRoundTrip(name, colon);
    QuoteFirst(q);
    JsonSpacing.Head('\"', q);
    JsonSpacing.Head(':', text + sep);
    JsonSpacing.Head(',', more);
    JsonSpacing.OverEarlier("\"" + q, "\"" + q, JStr(name), colon, colon, v, sep, sep, ms, rest);
  }

  lemma Pieces(a: string, b: string, c: string, d: string, e: string, f: string, rest: string)
    ensures a + (b + (c + (d + (e + f)))) + rest == a + (b + (c + (d + (e + (f + rest)))))
  {
  }

  // ----- characters by number

  /** The hexadecimal digit of value `v`, in either case. */
  predicate HexOf(d: char, v: nat) {
    v < 16 && ("0123456789abcdef"[v] == d || "0123456789ABCDEF"[v] == d)
  }

  lemma HexOfValue(d: char, v: nat)
    requires HexOf(d, v)
    ensures HexValue(d) == Some(v)
  {
  }

  predicate Writes16(h: string, u: nat) {
    && |h| == 4 && u < 0x10000
    && HexOf(h[0], u / 4096) && HexOf(h[1], u / 256 % 16) && HexOf(h[2], u / 16 % 16) && HexOf(h[3], u % 16)
  }

  lemma FourDigits(u: nat)
    ensures u == 4096 * (u / 4096) + 256 * (u / 256 % 16) + 16 * (u / 16 % 16) + u % 16
  {
    assert u / 4096 == u / 256 / 16 && u / 256 == u / 16 / 16;
  }

  lemma Hex4Value(h: string, u: nat, rest: string)
    requires Writes16(h, u)
    ensures Hex4(h + rest) == Some(u)
  {
    HexOfValue(h[0], u / 4096);
    HexOfValue(h[1], u / 256 % 16);
    HexOfValue(h[2], u / 16 % 16);
    HexOfValue(h[3], u % 16);
    FourDigits(u);
  }

  /** A character of the basic plane by its number; a surrogate alone is no character. */
  lemma EscapedByNumber(h: string, u: nat, rest: string)
    requires Writes16(h, u) && (0xD800 <= u < 0xE000 ==> rest == "" || rest[0] != '\\')
    ensures ParseUnit("\\u" + (h + rest)) ==
            Some(Unit(if 0xD800 <= u < 0xE000 then None else Some(u as char), 6))
  {
    var s := "\\u" + (h + rest);
    Hex4Value(h, u, rest);
    assert s[2..] == h + rest && s[0] == '\\' && s[1] == 'u';
    if rest != "" {
      assert s[6] == rest[0];
    }
  }

  lemma TwoUnits(s: string, c: char, u: nat, v: nat)
    requires |s| >= 12 && s[0] == '\\' && s[1] == 'u' && s[6] == '\\' && s[7] == 'u'
    requires Hex4(s[2..]) == Some(u) && Hex4(s[8..]) == Some(v)
    requires 0xD800 <= u < 0xDC00 <= v < 0xE000 && c as int == 0x10000 + (u - 0xD800) * 0x400 + (v - 0xDC00)
    ensures ParseUnit(s) == Some(Unit(Some(c), 12))
  {
  }

  lemma TwoEscapes(high: string, low: string, rest: string, s: string)
    requires |high| == |low| == 4 && s == ['\\', 'u'] + high + ['\\', 'u'] + low + rest
    ensures s[2..] == high + (['\\', 'u'] + low + rest) && s[8..] == low + rest
    ensures s[0] == '\\' && s[1] == 'u' && s[6] == '\\' && s[7] == 'u'
  {
  }

  /** Any other character by the two surrogates of its number. */
  lemma EscapedByTwo(c: char, u: nat, v: nat, high: string, low: string, rest: string)
    requires 0xD800 <= u < 0xDC00 <= v < 0xE000 && c as int == 0x10000 + (u - 0xD800) * 0x400 + (v - 0xDC00)
    requires Writes16(high, u) && Writes16(low, v)
    ensures ParseUnit(['\\', 'u'] + high + ['\\', 'u'] + low + rest) == Some(Unit(Some(c), 12))
  {
    var s := ['\\', 'u'] + high + ['\\', 'u'] + low + rest;
    Hex4Value(high, u, ['\\', 'u'] + low + rest);
    Hex4Value(low, v, rest);
    TwoEscapes(high, low, rest, s);
    TwoUnits(s, c, u, v);
  }
}
