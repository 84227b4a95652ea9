/** Who a chat line is addressed to: `mentions_self` in `hook_format.rs` and `bodyMentionsSelf` in the chat
    UI's `mention.ts`, which must agree. */
module MentionToken {
  import opened Strings
  import opened Wrappers
  import Utf8

  /** `@cc`, `@claude`, `@all` and `@here` address everyone. */
  const BROADCAST_TOKENS: seq<string> := ["cc", "claude", "all", "here"]

  type byte = Utf8.byte

  const AT: byte := 0x40

  predicate IsNickCont(c: char) {
    'A' <= c <= 'Z' || 'a' <= c <= 'z' || '0' <= c <= '9' || c == '-' || c == '_'
  }

  /** `needle` stands at position `p`. */
  predicate OccursAt<T(==)>(s: seq<T>, needle: seq<T>, p: nat) {
    p <= |s| && needle <= s[p..]
  }

  /** `@target` stands at position `p`, and no longer nick does. */
  predicate TokenAt(s: string, target: string, p: nat) {
    OccursAt(s, "@" + target, p) && (p + 1 + |target| < |s| ==> !IsNickCont(s[p + 1 + |target|]))
  }

  predicate Mentions(s: string, target: string) {
    exists p :: 0 <= p <= |s| && TokenAt(s, target, p)
  }

  /** The first occurrence from `from` on. */
  function Find<T(==)>(s: seq<T>, needle: seq<T>, from: nat): (p: Option<nat>)
    requires from <= |s|
    ensures p.Some? ==> from <= p.value && OccursAt(s, needle, p.value)
    ensures forall q :: from <= q <= |s| && (p.Some? ==> q < p.value) ==> !OccursAt(s, needle, q)
    decreases |s| - from
  {
    if OccursAt(s, needle, from) then Some(from)
    else if from == |s| then None
    else Find(s, needle, from + 1)
  }

  /** The scan of the chat UI, over characters.  It resumes one character after an occurrence that is part of
      a longer nick. */
  method MatchAtToken(lower: string, target: string) returns (found: bool)
    ensures found <==> Mentions(lower, target)
  {
    var needle := "@" + target;
    var from := 0;
    while true
      invariant 0 <= from <= |lower|
      invariant forall q :: 0 <= q < from ==> !TokenAt(lower, target, q)
      decreases |lower| - from
    {
      var p := Find(lower, needle, from);
      if p.None? {
        return false;
      }
      var after := p.value + |needle|;
      if after == |lower| || !IsNickCont(lower[after]) {
        assert TokenAt(lower, target, p.value);
        return true;
      }
      from := p.value + 1;
    }
  }

  // ----- the same scan over UTF-8 bytes

  predicate IsNickContByte(b: byte) {
    b < 0x80 && IsNickCont(b as char)
  }

  predicate TokenAtByte(s: seq<byte>, target: seq<byte>, p: nat) {
    OccursAt(s, [AT] + target, p) && (p + 1 + |target| < |s| ==> !IsNickContByte(s[p + 1 + |target|]))
  }

  predicate MentionsBytes(s: seq<byte>, target: seq<byte>) {
    exists p :: 0 <= p <= |s| && TokenAtByte(s, target, p)
  }

  /** The scan of the hook.  Between two turns it stands on a character boundary, or slicing would panic. */
  method MatchAtTokenBytes(lower: seq<byte>, target: seq<byte>, ghost text: string) returns (found: bool)
    requires lower == Utf8.Encode(text)
    ensures found <==> MentionsBytes(lower, target)
  {
    var needle := [AT] + target;
    var from := 0;
    while true
      invariant 0 <= from <= |lower|
      invariant Utf8.IsBoundary(lower, from)
      invariant forall q :: 0 <= q < from ==> !TokenAtByte(lower, target, q)
      decreases |lower| - from
    {
      var p := Find(lower, needle, from);
      if p.None? {
        return false;
      }
      var after := p.value + |needle|;
      if after == |lower| || !IsNickContByte(lower[after]) {
        assert TokenAtByte(lower, target, p.value);
        return true;
      }
      assert lower[p.value] == needle[0] == AT;
      Utf8.AfterAsciiByte(text, p.value);
      from := p.value + 1;
    }
  }

  lemma FirstByte(s: string)
    requires s != ""
    ensures Utf8.Encode(s) != [] && IsNickContByte(Utf8.Encode(s)[0]) == IsNickCont(s[0])
    ensures Utf8.Encode(s)[0] == AT <==> s[0] == '@'
  {
  }

  lemma NeedleBytes(target: string)
    ensures Utf8.Encode("@" + target) == [AT] + Utf8.Encode(target)
  {
    assert ("@" + target)[0] == '@' && ("@" + target)[1..] == target;
    assert Utf8.EncodeChar('@') == [AT];
  }

  lemma PrefixGivesBytes(v: string, needle: string)
    requires needle <= v
    ensures Utf8.Encode(v) == Utf8.Encode(needle) + Utf8.Encode(v[|needle|..])
  {
    assert v == needle + v[|needle|..];
    Utf8.EncodeConcat(needle, v[|needle|..]);
  }

  lemma BytesGivePrefix(v: string, needle: string, rest: seq<byte>)
    requires Utf8.Encode(v) == Utf8.Encode(needle) + rest
    ensures needle <= v
  {
    Utf8.EncodePrefix(needle, v, rest);
  }

  lemma PrefixHasBytes(v: string, needle: string)
    ensures needle <= v <==> Utf8.Encode(needle) <= Utf8.Encode(v)
    ensures needle <= v ==> Utf8.Encode(v) == Utf8.Encode(needle) + Utf8.Encode(v[|needle|..])
  {
    var n, all := Utf8.Encode(needle), Utf8.Encode(v);
    if needle <= v {
      PrefixGivesBytes(v, needle);
    } else if n <= all {
      assert all == n + all[|n|..];
      BytesGivePrefix(v, needle, all[|n|..]);
    }
  }

  /** A token among the characters is one among the bytes. */
  lemma TokenHasBytes(s: string, target: string, k: nat)
    requires k <= |s|
    ensures TokenAt(s, target, k) <==> TokenAtByte(Utf8.Encode(s), Utf8.Encode(target), |Utf8.Encode(s[..k])|)
  {
    var needle := "@" + target;
    NeedleBytes(target);
    Utf8.EncodeSuffix(s, k);
    PrefixHasBytes(s[k..], needle);
    if needle <= s[k..] {
      TokenEnds(Utf8.Encode(s), |Utf8.Encode(s[..k])|, Utf8.Encode(needle), s[k..][|needle|..]);
      assert k + |needle| < |s| ==> s[k + |needle|] == s[k..][|needle|..][0];
    }
  }

  lemma TokenEnds(bytes: seq<byte>, p: nat, nb: seq<byte>, rest: string)
    requires p <= |bytes| && bytes[p..] == nb + Utf8.Encode(rest)
    ensures rest == "" <==> p + |nb| == |bytes|
    ensures rest != "" ==> IsNickContByte(bytes[p + |nb|]) == IsNickCont(rest[0])
  {
    if rest != "" {
      FirstByte(rest);
      assert bytes[p + |nb|] == bytes[p..][|nb|];
    }
  }

  /** Scanning the bytes finds the same mentions as scanning the characters. */
  lemma BytesMentionIff(s: string, target: string)
    ensures Mentions(s, target) <==> MentionsBytes(Utf8.Encode(s), Utf8.Encode(target))
  {
    var bytes, nb := Utf8.Encode(s), Utf8.Encode(target);
    if Mentions(s, target) {
      var k :| 0 <= k <= |s| && TokenAt(s, target, k);
      TokenHasBytes(s, target, k);
      assert TokenAtByte(bytes, nb, |Utf8.Encode(s[..k])|);
    }
    if MentionsBytes(bytes, nb) {
      var p :| 0 <= p <= |bytes| && TokenAtByte(bytes, nb, p);
      assert bytes[p..][0] == AT && bytes[p] == AT;
      Utf8.BoundaryOfText(s, p);
      var k :| 0 <= k <= |s| && |Utf8.Encode(s[..k])| == p;
      TokenHasBytes(s, target, k);
    }
  }

  predicate EndsWith(s: string, suffix: string) {
    |suffix| <= |s| && s[|s| - |suffix|..] == suffix
  }

  predicate Broadcast(lower: string) {
    exists i :: 0 <= i < |BROADCAST_TOKENS| && Mentions(lower, BROADCAST_TOKENS[i])
  }

  predicate NickMentioned(lower: string, lowerNick: Option<string>) {
    lowerNick.Some? && lowerNick.value != "" && Mentions(lower, lowerNick.value)
  }

  /** The nick of the owner's AI on the same machine, unless the nick has that form already. */
  predicate AiMentioned(lower: string, lowerNick: Option<string>) {
    && lowerNick.Some? && lowerNick.value != "" && !EndsWith(lowerNick.value, "-cc")
    && Mentions(lower, lowerNick.value + "-cc")
  }

  function Lowered(nick: Option<string>): (lower: Option<string>) {
    if nick.None? then None else Some(LowerAscii(nick.value))
  }

  predicate HookMentions(body: string, selfNick: Option<string>) {
    var lower, lowerNick := LowerAscii(body), Lowered(selfNick);
    Broadcast(lower) || NickMentioned(lower, lowerNick) || AiMentioned(lower, lowerNick)
  }

  predicate UiMentions(body: string, selfNick: Option<string>, toLower: string -> string) {
    || Broadcast(toLower(body))
    || (selfNick.Some? && selfNick.value != "" && Mentions(toLower(body), toLower(selfNick.value)))
  }

  method Matches(lower: string, target: string) returns (found: bool)
    ensures found <==> Mentions(lower, target)
  {
    BytesMentionIff(lower, target);
    found := MatchAtTokenBytes(Utf8.Encode(lower), Utf8.Encode(target), lower);
  }

  /** The hook's rule. */
  method MentionsSelf(body: string, selfNick: Option<string>) returns (found: bool)
    ensures found <==> HookMentions(body, selfNick)
  {
    var lower := LowerAscii(body);
    var i := 0;
    while i < |BROADCAST_TOKENS|
      invariant 0 <= i <= |BROADCAST_TOKENS|
      invariant forall j :: 0 <= j < i ==> !Mentions(lower, BROADCAST_TOKENS[j])
    {
      var hit := Matches(lower, BROADCAST_TOKENS[i]);
      if hit {
        return true;
      }
      i := i + 1;
    }
    found := false;
    if selfNick.Some? && selfNick.value != "" {
      var lowerNick := LowerAscii(selfNick.value);
      found := Matches(lower, lowerNick);
      if !found && !EndsWith(lowerNick, "-cc") {
        found := Matches(lower, lowerNick + "-cc");
      }
    }
  }

  /** The chat UI's rule, over the lower-casing of its own language. */
  method BodyMentionsSelf(body: string, selfNick: Option<string>, toLower: string -> string) returns (found: bool)
    ensures found <==> UiMentions(body, selfNick, toLower)
  {
    var lower := toLower(body);
    var i := 0;
    while i < |BROADCAST_TOKENS|
      invariant 0 <= i <= |BROADCAST_TOKENS|
      invariant forall j :: 0 <= j < i ==> !Mentions(lower, BROADCAST_TOKENS[j])
    {
      var hit := MatchAtToken(lower, BROADCAST_TOKENS[i]);
      if hit {
        return true;
      }
      i := i + 1;
    }
    found := false;
    if selfNick.Some? && |selfNick.value| > 0 {
      var lowerNick := toLower(selfNick.value);
      found := MatchAtToken(lower, lowerNick);
    }
  }

  // ----- the two rules

  predicate IsAscii(s: string) {
    forall i :: 0 <= i < |s| ==> s[i] as int < 0x80
  }

  /** On ASCII text, for any lower-casing that is right there, the two rules differ only in the form
      `@<nick>-cc`, which wakes the AI but is not shown as addressed to its owner. */
  lemma RulesAgree(body: string, selfNick: Option<string>, toLower: string -> string)
    requires IsAscii(body) && (selfNick.Some? ==> IsAscii(selfNick.value))
    requires toLower(body) == LowerAscii(body)
    requires selfNick.Some? ==> toLower(selfNick.value) == LowerAscii(selfNick.value)
    ensures HookMentions(body, selfNick) <==>
            UiMentions(body, selfNick, toLower) || AiMentioned(LowerAscii(body), Lowered(selfNick))
  {
  }

  lemma NotLonger(s: string, nick: string, other: string, p: nat)
    requires TokenAt(s, nick, p) && OccursAt(s, "@" + other, p)
    requires forall i :: 0 <= i < |other| ==> IsNickCont(other[i])
    ensures |other| <= |nick|
  {
    var b := "@" + other;
    forall i | p + 1 <= i < p + 1 + |other|
      ensures IsNickCont(s[i])
    {
      assert s[i] == s[p..][i - p] == b[i - p] == other[i - p - 1];
    }
  }

  /** At one position at most one nick is addressed. */
  lemma OneNickAtATime(s: string, nick: string, other: string, p: nat)
    requires TokenAt(s, nick, p) && TokenAt(s, other, p)
    requires forall i :: 0 <= i < |nick| ==> IsNickCont(nick[i])
    requires forall i :: 0 <= i < |other| ==> IsNickCont(other[i])
    ensures nick == other
  {
    NotLonger(s, nick, other, p);
    NotLonger(s, other, nick, p);
    assert ("@" + nick)[1..] == nick && ("@" + other)[1..] == other;
  }

  // ----- what is a mention, character by character

  /** A character that may continue a nick: a letter or digit of ASCII, hyphen, underscore. */
  predicate Continues(c: char) {
    var n := c as int;
    n == 0x2D || n == 0x5F || 0x30 <= n <= 0x39 || 0x41 <= n <= 0x5A || 0x61 <= n <= 0x7A
  }

  lemma NeedleAt(before: string, nick: string, rest: string)
    ensures OccursAt(before + ("@" + nick) + rest, "@" + nick, |before|)
  {
    var s := before + ("@" + nick) + rest;
    assert s[|before|..] == "@" + nick + rest;
  }

  /** Wherever `@nick` stands, it is a mention at the end of the text, and otherwise exactly if the next character
      cannot continue a nick. */
  lemma MentionedAtIff(before: string, nick: string, next: char, rest: string)
    ensures TokenAt(before + ("@" + nick), nick, |before|)
    ensures TokenAt(before + ("@" + nick) + ([next] + rest), nick, |before|) <==> !Continues(next)
  {
    NeedleAt(before, nick, "");
    assert before + ("@" + nick) + "" == before + ("@" + nick);
    NeedleAt(before, nick, [next] + rest);
    assert (before + ("@" + nick) + ([next] + rest))[|before| + 1 + |nick|] == next;
  }

  lemma AtSignNeeded(s: string, nick: string, p: nat)
    requires OccursAt(s, "@" + nick, p)
    ensures p + 1 + |nick| <= |s| && s[p] == '@'
  {
    assert s[p] == s[p..][0] == ("@" + nick)[0];
  }

  /** A text in which `@nick` stands once, at the front: it mentions the nick exactly if nothing follows that
      continues it. */
  lemma FollowedByIff(nick: string, next: char, rest: string)
    requires '@' !in nick && '@' !in rest && next != '@'
    ensures Mentions("@" + nick, nick)
    ensures Mentions("@" + nick + [next] + rest, nick) <==> !Continues(next)
  {
    var s := "" + ("@" + nick) + ([next] + rest);
    assert s == "@" + nick + [next] + rest && "" + ("@" + nick) == "@" + nick;
    MentionedAtIff("", nick, next, rest);
    if p :| 0 <= p <= |s| && TokenAt(s, nick, p) {
      AtSignNeeded(s, nick, p);
      CharacterAt(s, nick, next, rest, p);
    }
  }

  lemma CharacterAt(s: string, nick: string, next: char, rest: string, p: nat)
    requires s == "@" + nick + [next] + rest && p < |s|
    ensures s[p] == if p == 0 then '@' else if p <= |nick| then nick[p - 1]
                    else if p == |nick| + 1 then next else rest[p - |nick| - 2]
  {
  }

  /** Who is addressed: everyone by four words, and the owner of a nick by that nick in any case of ASCII letters,
      or by the nick with `-cc` unless it ends so. */
  lemma HookMentionsIff(body: string, selfNick: Option<string>)
    ensures var lower := LowerAscii(body);
      HookMentions(body, selfNick) <==>
      || Mentions(lower, "cc") || Mentions(lower, "claude") || Mentions(lower, "all") || Mentions(lower, "here")
      || (selfNick.Some? && selfNick.value != ""
          && var nick := LowerAscii(selfNick.value);
             Mentions(lower, nick) || (Mentions(lower, nick + "-cc") && forall x :: nick != x + "-cc"))
  {
    var t := BROADCAST_TOKENS;
    assert t[0] == "cc" && t[1] == "claude" && t[2] == "all" && t[3] == "here" && |t| == 4;
    if selfNick.Some? {
      EndsWithIff(LowerAscii(selfNick.value), "-cc");
    }
  }

  lemma EndsWithIff(s: string, suffix: string)
    ensures EndsWith(s, suffix) <==> exists x :: s == x + suffix
  {
    if EndsWith(s, suffix) {
      assert s == s[..|s| - |suffix|] + suffix;
    }
  }
}
