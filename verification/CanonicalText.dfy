/** The canonical bytes of a message, spelled out (section 4 of the protocol, `to_canonical_json`). */
module CanonicalText {
  import opened Json
  import opened Message
  import opened Wrappers
  import Sequences

  /** A field after a comma, before the rest; one without a value is left out. */
  function Field(name: string, value: Option<JValue>, rest: string): (s: string)
    requires value.Some? ==> value.value.JInt? || value.value.JStr?
  {
    if value.None? then rest else ",\"" + name + "\":" + PrintValue(value.value) + rest
  }

  function FromSize(m: Message): (s: string) {
    Field("blob_size", IntValue(m.blobSize), "}")
  }

  function FromHash(m: Message): (s: string) {
    Field("blob_hash", StringValue(m.blobHash), FromSize(m))
  }

  function FromNick(m: Message): (s: string) {
    Field("nick", StringValue(m.nick), FromHash(m))
  }

  /** The kind is left out if it is `chat`. */
  function FromKind(m: Message): (s: string) {
    Field("kind", if m.kind == "chat" then None else Some(JStr(m.kind)), FromNick(m))
  }

  function FromBody(m: Message): (s: string) {
    Field("body", Some(JStr(m.body)), FromKind(m))
  }

  function FromTime(m: Message): (s: string) {
    Field("ts", Some(JInt(m.ts)), FromBody(m))
  }

  function FromAuthor(m: Message): (s: string) {
    Field("author", Some(JStr(m.author)), FromTime(m))
  }

  function FromId(m: Message): (s: string) {
    Field("id", Some(JStr(m.id)), FromAuthor(m))
  }

  predicate Plain(s: string) {
    forall i :: 0 <= i < |s| ==> 0x20 <= s[i] as int && s[i] != '\"' && s[i] != '\\'
  }

  lemma {:induction false} EscapePlain(s: string)
    requires Plain(s)
    ensures Escape(s) == s
    decreases |s|
  {
    if s != "" {
      EscapePlain(s[1..]);
      assert s == [s[0]] + s[1..];
    }
  }

  lemma PlainNames()
    ensures Plain("id") && Plain("author") && Plain("ts") && Plain("body")
    ensures Plain("kind") && Plain("nick") && Plain("blob_hash") && Plain("blob_size")
  {
  }

  predicate AllPrintable(ms: seq<Member>) {
    forall i :: 0 <= i < |ms| ==> Printable(ms[i])
  }

  /** The members but the first, each after its comma. */
  function More(ms: seq<Member>): (s: string)
    requires AllPrintable(ms)
    decreases |ms|
  {
    if ms == [] then "}" else "," + PrintMember(ms[0]) + More(ms[1..])
  }

  lemma {:induction false} PrintedFrom(first: Member, ms: seq<Member>, all: seq<Member>)
    requires Printable(first) && AllPrintable(ms) && all == [first] + ms
    ensures AllPrintable(all) && PrintMembers(all) == PrintMember(first) + More(ms)
    decreases |ms|
  {
    assert all[0] == first && all[1..] == ms;
    if ms != [] {
      assert ms == [ms[0]] + ms[1..];
      PrintedFrom(ms[0], ms[1..], ms);
      Sequences.Associate(PrintMember(first), ",", PrintMembers(ms));
      Sequences.Associate(",", PrintMember(ms[0]), More(ms[1..]));
    }
  }

  lemma Assemble(name: string, value: string, rest: string)
    ensures "," + (("\"" + name + "\"") + (":" + value)) + rest == ",\"" + name + "\":" + value + rest
  {
  }

  lemma MoreOne(first: Member, ms: seq<Member>, all: seq<Member>)
    requires all == [first] + ms && Printable(first) && AllPrintable(ms)
    ensures AllPrintable(all) && More(all) == "," + PrintMember(first) + More(ms)
  {
    assert all[0] == first && all[1..] == ms;
  }

  lemma MoreField(name: string, value: Option<JValue>, ms: seq<Member>, text: string, all: seq<Member>)
    requires Plain(name) && (value.Some? ==> value.value.JInt? || value.value.JStr?)
    requires AllPrintable(ms) && More(ms) == text && all == OneMember(name, value) + ms
    ensures AllPrintable(all) && More(all) == Field(name, value, text)
  {
    if value.None? {
      assert all == ms;
    } else {
      EscapePlain(name);
      MoreOne(Member(name, value.value), ms, all);
      Assemble(name, PrintValue(value.value), text);
    }
  }

  lemma SizeText(m: Message, ms: seq<Member>)
    requires ms == OneMember("blob_size", IntValue(m.blobSize))
    ensures AllPrintable(ms) && More(ms) == FromSize(m)
  {
    assert ms + [] == ms;
    PlainNames();
    MoreField("blob_size", IntValue(m.blobSize), [], "}", ms);
  }

  lemma HashText(m: Message, size: seq<Member>, ms: seq<Member>)
    requires size == OneMember("blob_size", IntValue(m.blobSize))
    requires ms == OneMember("blob_hash", StringValue(m.blobHash)) + size
    ensures AllPrintable(ms) && More(ms) == FromHash(m)
  {
    SizeText(m, size);
    PlainNames();
    MoreField("blob_hash", StringValue(m.blobHash), size, FromSize(m), ms);
  }

  lemma NickText(m: Message, hash: seq<Member>, ms: seq<Member>)
    requires hash == OneMember("blob_hash", StringValue(m.blobHash)) + OneMember("blob_size", IntValue(m.blobSize))
    requires ms == OneMember("nick", StringValue(m.nick)) + hash
    ensures AllPrintable(ms) && More(ms) == FromNick(m)
  {
    HashText(m, OneMember("blob_size", IntValue(m.blobSize)), hash);
    PlainNames();
    MoreField("nick", StringValue(m.nick), hash, FromHash(m), ms);
  }

  lemma KindText(m: Message, nick: seq<Member>, ms: seq<Member>)
    requires nick == OneMember("nick", StringValue(m.nick))
                     + (OneMember("blob_hash", StringValue(m.blobHash)) + OneMember("blob_size", IntValue(m.blobSize)))
    requires ms == OneMember("kind", StringValue(WireKind(m))) + nick
    ensures AllPrintable(ms) && More(ms) == FromKind(m)
  {
    NickText(m, OneMember("blob_hash", StringValue(m.blobHash)) + OneMember("blob_size", IntValue(m.blobSize)), nick);
    PlainNames();
    MoreField("kind", StringValue(WireKind(m)), nick, FromNick(m), ms);
  }

  lemma OptionalText(m: Message)
    ensures AllPrintable(Optional(m)) && More(Optional(m)) == FromKind(m)
  {
    KindText(m, OneMember("nick", StringValue(m.nick))
                + (OneMember("blob_hash", StringValue(m.blobHash)) + OneMember("blob_size", IntValue(m.blobSize))),
             Optional(m));
  }

  /** Adding a field that is always there. */
  lemma MoreValue(name: string, value: JValue, ms: seq<Member>, text: string)
    requires Plain(name) && (value.JInt? || value.JStr?) && AllPrintable(ms) && More(ms) == text
    ensures AllPrintable([Member(name, value)] + ms)
    ensures More([Member(name, value)] + ms) == Field(name, Some(value), text)
  {
    MoreField(name, Some(value), ms, text, [Member(name, value)] + ms);
  }

  lemma BodyText(m: Message, ms: seq<Member>)
    requires ms == [Member("body", JStr(m.body))] + Optional(m)
    ensures AllPrintable(ms) && More(ms) == FromBody(m)
  {
    OptionalText(m);
    PlainNames();
    MoreValue("body", JStr(m.body), Optional(m), FromKind(m));
  }

  lemma TimeText(m: Message, ms: seq<Member>)
    requires ms == [Member("ts", JInt(m.ts))] + ([Member("body", JStr(m.body))] + Optional(m))
    ensures AllPrintable(ms) && More(ms) == FromTime(m)
  {
    var body := [Member("body", JStr(m.body))] + Optional(m);
    BodyText(m, body);
    PlainNames();
    MoreValue("ts", JInt(m.ts), body, FromBody(m));
  }

  /** The members after the version. */
  function AfterVersion(m: Message): (ms: seq<Member>) {
    [Member("id", JStr(m.id))] + ([Member("author", JStr(m.author))]
    + ([Member("ts", JInt(m.ts))] + ([Member("body", JStr(m.body))] + Optional(m))))
  }

  lemma AfterVersionText(m: Message)
    ensures AllPrintable(AfterVersion(m)) && More(AfterVersion(m)) == FromId(m)
  {
    var time := [Member("ts", JInt(m.ts))] + ([Member("body", JStr(m.body))] + Optional(m));
    var author := [Member("author", JStr(m.author))] + time;
    TimeText(m, time);
    PlainNames();
    MoreValue("author", JStr(m.author), time, FromTime(m));
    MoreValue("id", JStr(m.id), author, FromAuthor(m));
  }

  lemma VersionFirst(m: Message)
    ensures Required(m) + Optional(m) == [Member("v", JInt(m.v))] + AfterVersion(m)
  {
  }

  lemma Opening(n: int, rest: string)
    ensures "{" + (PrintMember(Member("v", JInt(n))) + rest) == "{\"v\":" + PrintInt(n) + rest
  {
    EscapePlain("v");
  }

  /** The text of a message: no white space, the fields in this order under these names, and those that say nothing
      left out. */
  lemma CanonicalJson(m: Message)
    ensures ToCanonicalJson(m) == "{\"v\":" + PrintInt(m.v) + FromId(m)
  {
    VersionFirst(m);
    AfterVersionText(m);
    PrintedFrom(Member("v", JInt(m.v)), AfterVersion(m), Required(m) + Optional(m));
    Opening(m.v, FromId(m));
  }

  /** The letters of section 7 of RFC 8259, and what they stand for after a backslash. */
  const ESCAPES: seq<(char, int)> :=
    [('\"', 0x22), ('\\', 0x5C), ('/', 0x2F), ('b', 0x8), ('f', 0xC), ('n', 0xA), ('r', 0xD), ('t', 0x9)]

  /** Which escapes of one letter the parser knows. */
  lemma ParsedEscapes(c: char, d: char)
    ensures SimpleEscape(c) == Some(d) <==> (c, d as int) in ESCAPES
  {
    var t := ESCAPES;
    assert t[0] in t && t[1] in t && t[2] in t && t[3] in t && t[4] in t && t[5] in t && t[6] in t && t[7] in t;
  }

  predicate HasLetter(d: char) {
    exists e :: e in ESCAPES && e.1 == d as int && d != '/'
  }

  /** The printer uses all of them but that of the solidus.  Of the other characters it escapes just those below a
      space, by their number. */
  lemma PrintedEscapes(c: char, d: char)
    ensures EscapeChar(d) == ['\\', c] <==> (c, d as int) in ESCAPES && d != '/'
    ensures HasLetter(d) || EscapeChar(d) ==
            if d as int < 0x20 then ['\\', 'u', '0', '0', HEX[d as int / 16], HEX[d as int % 16]] else [d]
  {
    var t := ESCAPES;
    assert t[0] in t && t[1] in t && t[3] in t && t[4] in t && t[5] in t && t[6] in t && t[7] in t;
  }
}
