/** Texts that the parser accepts besides those that are printed: any white space between tokens (section 2 of
    RFC 8259), and the literals; and that nothing may follow an object. */
module JsonSpacing {
  import opened Json
  import opened Wrappers
  import Sequences

  predicate AllSpace(s: string) {
    forall i :: 0 <= i < |s| ==> s[i] == ' ' || s[i] == '\t' || s[i] == '\n' || s[i] == '\r'
  }

  /** White space before the name, before the colon, before the value, and after it. */
  datatype Spacing = Spacing(beforeName: string, beforeColon: string, beforeValue: string, afterValue: string)

  predicate SpacingOk(p: Spacing) {
    AllSpace(p.beforeName) && AllSpace(p.beforeColon) && AllSpace(p.beforeValue) && AllSpace(p.afterValue)
  }

  predicate Scalar(v: JValue) {
    v.JNull? || v.JBool? || v.JInt? || v.JStr?
  }

  function ScalarText(v: JValue): (s: string)
    requires Scalar(v)
  {
    match v
    case JNull => "null"
    case JBool(b) => if b then "true" else "false"
    case _ => PrintValue(v)
  }

  predicate AllOk(ms: seq<Member>, ps: seq<Spacing>) {
    |ms| == |ps| && forall i :: 0 <= i < |ms| ==> Scalar(ms[i].value) && SpacingOk(ps[i])
  }

  /** The members with their spacing, and the closing brace. */
  function Spaced(ms: seq<Member>, ps: seq<Spacing>): (s: string)
    requires ms != [] && AllOk(ms, ps)
    decreases |ms|
  {
    var m, p := ms[0], ps[0];
    var last := if |ms| == 1 then "}" else "," + Spaced(ms[1..], ps[1..]);
    p.beforeName
    + ("\"" + (Escape(m.name) + ("\"" + (p.beforeColon + (":" + (p.beforeValue
    + (ScalarText(m.value) + (p.afterValue + last))))))))
  }

  lemma {:induction false} SkipOver(ws: string, t: string)
    requires AllSpace(ws)
    ensures SkipSpace(ws + t) == SkipSpace(t)
    decreases |ws|
  {
    if ws == "" {
      assert ws + t == t;
    } else {
      assert (ws + t)[0] == ws[0] && (ws + t)[1..] == ws[1..] + t;
      SkipOver(ws[1..], t);
    }
  }

  lemma {:induction false} OnlySpaceIff(s: string)
    ensures SkipSpace(s) == "" <==> AllSpace(s)
    decreases |s|
  {
    if s != "" && IsSpace(s[0]) {
      OnlySpaceIff(s[1..]);
      assert s == [s[0]] + s[1..];
    }
  }

  lemma ValueAfterSpace(ws: string, t: string)
    requires AllSpace(ws)
    ensures ParseValue(ws + t) == ParseValue(t)
  {
    SkipOver(ws, t);
  }

  lemma EndsAfterSpace(ws: string, t: string)
    requires AllSpace(ws) && EndsNumber(t)
    ensures EndsNumber(ws + t)
  {
    if ws != "" {
      assert (ws + t)[0] == ws[0];
    }
  }

  lemma LiteralText(word: string, rest: string)
    ensures word <= word + rest && (word + rest)[|word|..] == rest
  {
  }

  lemma ScalarRoundTrip(v: JValue, rest: string)
    requires Scalar(v) && EndsNumber(rest)
    ensures ParseValue(ScalarText(v) + rest) == Some((v, rest))
  {
    match v {
      case JNull => LiteralText("null", rest);
      case JBool(b) => LiteralText(if b then "true" else "false", rest);
      case _ => ValueRoundTrip(v, rest);
    }
  }

  lemma CharAfterSpace(ws: string, c: char, t: string)
    requires AllSpace(ws) && !IsSpace(c)
    ensures SkipSpace(ws + ([c] + t)) == [c] + t && ([c] + t)[0] == c && ([c] + t)[1..] == t
  {
    SkipOver(ws, [c] + t);
  }

  lemma Head(c: char, t: string)
    ensures ([c] + t)[0] == c && ([c] + t)[1..] == t
  {
  }

  /** How the parser moves over the last member. */
  lemma OverLast(s: string, t: string, key: JValue, colon: string, u: string, value: JValue, sep: string, w: string)
    requires SkipSpace(s) == t != "" && t[0] == '\"' && ParseString(t[1..]) == Some((key, colon))
    requires SkipSpace(colon) == u != "" && u[0] == ':' && ParseValue(u[1..]) == Some((value, sep))
    requires SkipSpace(sep) == w != "" && w[0] == '}'
    ensures ParseMoreMembers(s) == Some(([(key, value)], w[1..]))
  {
  }

  /** And over an earlier one. */
  lemma OverEarlier(s: string, t: string, key: JValue, colon: string, u: string, value: JValue, sep: string, w: string,
                    parsed: seq<(JValue, JValue)>, rest: string)
    requires SkipSpace(s) == t != "" && t[0] == '\"' && ParseString(t[1..]) == Some((key, colon))
    requires SkipSpace(colon) == u != "" && u[0] == ':' && ParseValue(u[1..]) == Some((value, sep))
    requires SkipSpace(sep) == w != "" && w[0] == ',' && ParseMoreMembers(w[1..]) == Some((parsed, rest))
    ensures ParseMoreMembers(s) == Some(([(key, value)] + parsed, rest))
  {
  }

  /** The pieces of one member with its spacing, as the parser meets them. */
  lemma MemberPieces(m: Member, p: Spacing, last: char, tail: string, sep: string, after: string, colon: string,
                     q: string, s: string)
    requires Scalar(m.value) && SpacingOk(p) && (last == ',' || last == '}')
    requires sep == p.afterValue + ([last] + tail) && after == p.beforeValue + (ScalarText(m.value) + sep)
    requires colon == p.beforeColon + (":" + after) && q == Escape(m.name) + ("\"" + colon)
    requires s == p.beforeName + ("\"" + q)
    ensures SkipSpace(s) == "\"" + q && ParseString(q) == Some((JStr(m.name), colon))
    ensures SkipSpace(colon) == ":" + after && ParseValue(after) == Some((m.value, sep))
    ensures SkipSpace(sep) == [last] + tail
  {
    CharAfterSpace(p.beforeName, '\"', q);
    StringRoundTrip(m.name, colon);
    CharAfterSpace(p.beforeColon, ':', after);
    CharAfterSpace(p.afterValue, last, tail);
    EndsAfterSpace(p.afterValue, [last] + tail);
    ScalarRoundTrip(m.value, sep);
    ValueAfterSpace(p.beforeValue, ScalarText(m.value) + sep);
  }

  /** The text from one place in a member on, its end included. */
  function FromSeparator(ms: seq<Member>, ps: seq<Spacing>, rest: string): (s: string)
    requires ms != [] && AllOk(ms, ps)
  {
    ps[0].afterValue + (if |ms| == 1 then "}" + rest else "," + (Spaced(ms[1..], ps[1..]) + rest))
  }

  function FromColon(ms: seq<Member>, ps: seq<Spacing>, rest: string): (s: string)
    requires ms != [] && AllOk(ms, ps)
  {
    ps[0].beforeColon + (":" + (ps[0].beforeValue + (ScalarText(ms[0].value) + FromSeparator(ms, ps, rest))))
  }

  lemma Nested(a: string, b: string, c: string, d: string, e: string, rest: string)
    ensures a + (b + (c + (d + e))) + rest == a + (b + (c + (d + (e + rest))))
  {
  }

  lemma SpacedPieces(ms: seq<Member>, ps: seq<Spacing>, rest: string)
    requires ms != [] && AllOk(ms, ps)
    ensures Spaced(ms, ps) + rest ==
            ps[0].beforeName + ("\"" + (Escape(ms[0].name) + ("\"" + FromColon(ms, ps, rest))))
  {
    var m, p := ms[0], ps[0];
    var last := if |ms| == 1 then "}" else "," + Spaced(ms[1..], ps[1..]);
    var value := ScalarText(m.value) + (p.afterValue + last);
    var colon := p.beforeColon + (":" + (p.beforeValue + value));
    Nested(p.beforeName, "\"", Escape(m.name), "\"", colon, rest);
    Nested(p.beforeColon, ":", p.beforeValue, ScalarText(m.value), p.afterValue + last, rest);
    Sequences.Associate(p.afterValue, last, rest);
    if |ms| > 1 {
      Sequences.Associate(",", Spaced(ms[1..], ps[1..]), rest);
    }
  }

  /** Members with any spacing parse to themselves. */
  lemma {:induction false} SpacedRoundTrip(ms: seq<Member>, ps: seq<Spacing>, rest: string)
    requires ms != [] && AllOk(ms, ps)
    ensures ParseMoreMembers(Spaced(ms, ps) + rest) == Some((Parsed(ms), rest))
    decreases |ms|
  {
    var m, p := ms[0], ps[0];
    var s, colon, sep := Spaced(ms, ps) + rest, FromColon(ms, ps, rest), FromSeparator(ms, ps, rest);
    var q, after := Escape(m.name) + ("\"" + colon), p.beforeValue + (ScalarText(m.value) + sep);
    SpacedPieces(ms, ps, rest);
    if |ms| == 1 {
      MemberPieces(m, p, '}', rest, sep, after, colon, q, s);
      Head('\"', q);
      Head(':', after);
      Head('}', rest);
      OverLast(s, "\"" + q, JStr(m.name), colon, ":" + after, m.value, sep, "}" + rest);
      assert Parsed(ms[1..]) == [];
      assert Parsed(ms) == [(JStr(m.name), m.value)];
    } else {
      var more := Spaced(ms[1..], ps[1..]) + rest;
      SpacedRoundTrip(ms[1..], ps[1..], rest);
      MemberPieces(m, p, ',', more, sep, after, colon, q, s);
      Head('\"', q);
      Head(':', after);
      Head(',', more);
      OverEarlier(s, "\"" + q, JStr(m.name), colon, ":" + after, m.value, sep, "," + more, Parsed(ms[1..]), rest);
    }
  }

  /** An object in any spacing, among white space, parses to its members; and no other text may follow it. */
  lemma SpacedObject(ms: seq<Member>, ps: seq<Spacing>, before: string, behind: string)
    requires ms != [] && AllOk(ms, ps) && AllSpace(before)
    ensures ParseObject(before + ("{" + (Spaced(ms, ps) + behind))) ==
            if AllSpace(behind) then Some(ms) else None
  {
    var inner := Spaced(ms, ps) + behind;
    CharAfterSpace(before, '{', inner);
    SpacedRoundTrip(ms, ps, behind);
    FirstIsName(ms, ps, behind);
    ParsedNames(ms);
    OnlySpaceIff(behind);
    ObjectOf(before + ("{" + inner), inner, ms, behind);
  }

  lemma FirstIsName(ms: seq<Member>, ps: seq<Spacing>, behind: string)
    requires ms != [] && AllOk(ms, ps)
    ensures SkipSpace(Spaced(ms, ps) + behind) != "" && SkipSpace(Spaced(ms, ps) + behind)[0] == '\"'
  {
    SpacedPieces(ms, ps, behind);
    CharAfterSpace(ps[0].beforeName, '\"', Escape(ms[0].name) + ("\"" + FromColon(ms, ps, behind)));
  }

  lemma ObjectOf(s: string, inner: string, ms: seq<Member>, behind: string)
    requires SkipSpace(s) == "{" + inner && ParseMoreMembers(inner) == Some((Parsed(ms), behind))
    requires SkipSpace(inner) != "" && SkipSpace(inner)[0] == '\"'
    requires |Parsed(ms)| == |ms|
    requires forall i :: 0 <= i < |ms| ==> Parsed(ms)[i] == (JStr(ms[i].name), ms[i].value)
    ensures ParseObject(s) == if SkipSpace(behind) == "" then Some(ms) else None
  {
    assert ("{" + inner)[1..] == inner;
    assert forall i :: 0 <= i < |ms| ==> Parsed(ms)[i].0.JStr?;
    assert Named(Parsed(ms)) == ms;
  }
}
