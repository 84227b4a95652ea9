/** What the rules of messages mean, stated without the functions that check them: which messages are accepted,
    by the receiver and by the constructors, and which error says what is wrong. */
module MessageRules {
  import opened Message
  import opened Wrappers
  import Json
  import Ulid
  import Utf8

  // ----- file names

  predicate IsSeparator(c: char) {
    c == '/' || c == '\\'
  }

  /** The components of a path, cut at every separator of either kind. */
  function Components(path: string): (cs: seq<string>)
    ensures cs != []
    decreases |path|
  {
    if path == "" then [""]
    else
      var n := |path| - 1;
      var cs := Components(path[..n]);
      if IsSeparator(path[n]) then cs + [""] else cs[..|cs| - 1] + [cs[|cs| - 1] + [path[n]]]
  }

  /** Joined to any directory the name adds just itself, as one component. */
  ghost predicate StaysInside(name: string) {
    forall dir, separator | IsSeparator(separator) ::
      Components(dir + [separator] + name) == Components(dir) + [name]
  }

  lemma ComponentsNext(path: string, c: char)
    ensures Components(path + [c]) ==
            var cs := Components(path);
            if IsSeparator(c) then cs + [""] else cs[..|cs| - 1] + [cs[|cs| - 1] + [c]]
  {
    assert (path + [c])[..|path|] == path;
  }

  predicate NoSeparator(name: string) {
    forall i :: 0 <= i < |name| ==> !IsSeparator(name[i])
  }

  lemma {:induction false} JoinAddsOne(dir: string, separator: char, name: string)
    requires IsSeparator(separator) && NoSeparator(name)
    ensures Components(dir + [separator] + name) == Components(dir) + [name]
    decreases |name|
  {
    if name == "" {
      ComponentsNext(dir, separator);
      assert dir + [separator] + name == dir + [separator];
    } else {
      var front, last := name[..|name| - 1], name[|name| - 1];
      JoinAddsOne(dir, separator, front);
      assert dir + [separator] + name == dir + [separator] + front + [last] && name == front + [last];
      ComponentsNext(dir + [separator] + front, last);
    }
  }

  lemma OneMore(path: string, c: char)
    ensures |Components(path + [c])| == |Components(path)| + if IsSeparator(c) then 1 else 0
  {
    ComponentsNext(path, c);
  }

  lemma LastCounts(front: string, last: char)
    ensures NoSeparator(front + [last]) <==> NoSeparator(front) && !IsSeparator(last)
  {
    var name := front + [last];
    assert name[|front|] == last && forall i :: 0 <= i < |front| ==> name[i] == front[i];
  }

  /** Every separator starts a new component. */
  lemma {:induction false} ComponentsGrow(path: string, name: string)
    ensures |Components(path + name)| >= |Components(path)| + if NoSeparator(name) then 0 else 1
    decreases |name|
  {
    if name == "" {
      assert path + name == path;
    } else {
      var front, last := name[..|name| - 1], name[|name| - 1];
      ComponentsGrow(path, front);
      assert path + name == path + front + [last] && name == front + [last];
      OneMore(path + front, last);
      LastCounts(front, last);
    }
  }

  lemma StaysInsideIff(name: string)
    ensures StaysInside(name) <==> NoSeparator(name)
  {
    if NoSeparator(name) {
      forall dir, separator | IsSeparator(separator)
        ensures Components(dir + [separator] + name) == Components(dir) + [name]
      {
        JoinAddsOne(dir, separator, name);
      }
    } else {
      ComponentsNext("", '/');
      ComponentsGrow("" + ['/'], name);
      assert Components("" + ['/'] + name) != Components("") + [name];
    }
  }

  /** Which names pass, and what the errors say of the others. */
  lemma FilenameIff(name: string)
    ensures ValidateFilename(name) == None <==> name != "" && StaysInside(name) && '\0' !in name
    ensures ValidateFilename(name) == Some(FilenameEmpty) <==> name == ""
    ensures ValidateFilename(name).Some? && name != "" ==> ValidateFilename(name) == Some(FilenameInvalid)
  {
    StaysInsideIff(name);
    if ValidateFilename(name) == None {
      assert forall i :: 0 <= i < |name| ==> name[i] in name;
    }
  }

  // ----- hashes

  function HexDigit(v: nat): (c: char)
    requires v < 16
  {
    ((if v < 10 then '0' as int else 'a' as int - 10) + v) as char
  }

  /** Two lower-case hexadecimal digits for each byte, the higher one first. */
  function Hex(bytes: seq<Utf8.byte>): (s: string)
    ensures |s| == 2 * |bytes|
  {
    seq(2 * |bytes|, i requires 0 <= i < 2 * |bytes| =>
      HexDigit(if i % 2 == 0 then bytes[i / 2] / 16 else bytes[i / 2] % 16))
  }

  ghost predicate IsHash(s: string) {
    exists bytes :: |bytes| == 32 && s == Hex(bytes)
  }

  function HexValue(c: char): (v: nat)
    requires IsLowerHex(c)
    ensures v < 16
  {
    if c <= '9' then c as int - '0' as int else c as int - 'a' as int + 10
  }

  lemma HexDigits(v: nat)
    requires v < 16
    ensures IsLowerHex(HexDigit(v)) && HexValue(HexDigit(v)) == v
  {
  }

  lemma HexInverse(c: char)
    requires IsLowerHex(c)
    ensures HexDigit(HexValue(c)) == c
  {
  }

  lemma TwoDigits(high: nat, low: nat)
    requires high < 16 && low < 16
    ensures (16 * high + low) / 16 == high && (16 * high + low) % 16 == low && 16 * high + low < 256
  {
  }

  predicate AllHex(s: string) {
    forall i :: 0 <= i < |s| ==> IsLowerHex(s[i])
  }

  function ByteOf(high: char, low: char): (b: Utf8.byte)
    requires IsLowerHex(high) && IsLowerHex(low)
  {
    (16 * HexValue(high) + HexValue(low)) as Utf8.byte
  }

  lemma DigitsOfByte(high: char, low: char)
    requires IsLowerHex(high) && IsLowerHex(low)
    ensures HexDigit(ByteOf(high, low) / 16) == high && HexDigit(ByteOf(high, low) % 16) == low
  {
    TwoDigits(HexValue(high), HexValue(low));
    HexInverse(high);
    HexInverse(low);
  }

  lemma Halves(i: nat)
    ensures i == 2 * (i / 2) + i % 2
  {
  }

  /** Every string of an even number of digits writes some bytes. */
  lemma BytesOfHex(s: string, n: nat) returns (bytes: seq<Utf8.byte>)
    requires |s| == 2 * n && AllHex(s)
    ensures |bytes| == n && s == Hex(bytes)
  {
    bytes := seq(n, k requires 0 <= k < n => ByteOf(s[2 * k], s[2 * k + 1]));
    forall i | 0 <= i < |s|
      ensures Hex(bytes)[i] == s[i]
    {
      var k := i / 2;
      Halves(i);
      DigitsOfByte(s[2 * k], s[2 * k + 1]);
    }
    assert s == Hex(bytes);
  }

  lemma HexIsHex(bytes: seq<Utf8.byte>)
    ensures AllHex(Hex(bytes)) && |Utf8.Encode(Hex(bytes))| == 2 * |bytes|
  {
    forall i | 0 <= i < |Hex(bytes)|
      ensures IsLowerHex(Hex(bytes)[i])
    {
      HexDigits(if i % 2 == 0 then bytes[i / 2] / 16 else bytes[i / 2] % 16);
    }
    Utf8.AsciiLength(Hex(bytes));
  }

  /** A hash passes exactly if it is the lower-case hexadecimal of 32 bytes. */
  lemma HashIff(hash: string)
    ensures ValidateBlobHash(hash) == None <==> IsHash(hash)
    ensures ValidateBlobHash(hash).Some? ==> ValidateBlobHash(hash) == Some(BlobHashInvalid)
  {
    if ValidateBlobHash(hash) == None {
      assert AllHex(hash);
      Utf8.AsciiLength(hash);
      var bytes := BytesOfHex(hash, 32);
    }
    if bytes :| |bytes| == 32 && hash == Hex(bytes) {
      HexIsHex(bytes);
      assert AllHex(hash);
    }
  }

  // ----- nicks

  /** Neither of the control sets C0 and C1 of Unicode, nor DEL. */
  predicate Printing(c: char) {
    0x20 <= c as int <= 0x7E || 0xA0 <= c as int
  }

  predicate AllPrinting(s: string) {
    forall i :: 0 <= i < |s| ==> Printing(s[i])
  }

  predicate IsNick(nick: string) {
    1 <= |Utf8.Encode(nick)| <= 64 && AllPrinting(nick)
  }

  lemma NickIff(nick: string)
    ensures ValidateNick(nick) == None <==> IsNick(nick)
    ensures ValidateNick(nick) == Some(NickEmpty) <==> nick == ""
    ensures ValidateNick(nick) == Some(NickTooLarge) <==> |Utf8.Encode(nick)| > 64
    ensures ValidateNick(nick) == Some(NickInvalid) <==> 1 <= |Utf8.Encode(nick)| <= 64 && !AllPrinting(nick)
  {
    if nick != "" {
      assert |Utf8.Encode(nick)| >= |Utf8.EncodeChar(nick[0])|;
    }
    assert (exists i :: 0 <= i < |nick| && IsControl(nick[i])) <==> !AllPrinting(nick);
  }

  // ----- messages

  /** A file drop announces one file: a name that stays inside, a hash, and at most 1 GiB. */
  ghost predicate ProperDrop(name: string, hash: Option<string>, size: Option<int>) {
    && name != "" && StaysInside(name) && '\0' !in name
    && hash.Some? && IsHash(hash.value) && size.Some? && size.value <= 1024 * 1024 * 1024
  }

  ghost predicate Proper(m: Message) {
    && m.v == 1 && |m.id| == 26 && (forall i :: 0 <= i < |m.id| ==> Ulid.IsCrockford(m.id[i]))
    && (m.nick.Some? ==> IsNick(m.nick.value))
    && ( || (m.kind == "chat" && |Utf8.Encode(m.body)| <= 8 * 1024)
         || (m.kind == "file_drop" && ProperDrop(m.body, m.blobHash, m.blobSize))
         || m.kind == "keepalive")
  }

  lemma KindsDiffer()
    ensures "chat" != "file_drop" && "chat" != "keepalive" && "file_drop" != "keepalive"
  {
    assert |"chat"| != |"file_drop"| && |"chat"| != |"keepalive"|;
    assert "file_drop"[0] != "keepalive"[0];
  }

  lemma DropIff(m: Message)
    requires m.kind == "file_drop"
    ensures ValidateKind(m) == None <==> ProperDrop(m.body, m.blobHash, m.blobSize)
  {
    KindsDiffer();
    FilenameIff(m.body);
    if m.blobHash.Some? {
      HashIff(m.blobHash.value);
    }
  }

  /** The messages that every receiver accepts unchanged are just the proper ones. */
  lemma WellFormedIff(m: Message)
    ensures WellFormed(m) <==> InRange(m) && Proper(m)
  {
    KindsDiffer();
    if m.kind == "file_drop" {
      DropIff(m);
    }
    if m.nick.Some? {
      NickIff(m.nick.value);
    }
  }

  /** What is sent is accepted as it is exactly if it is proper. */
  lemma ProperRoundTrips(m: Message)
    requires InRange(m)
    ensures FromWire(ToCanonicalJson(m)) == Success(m) <==> Proper(m)
  {
    RoundTripIff(m);
    WellFormedIff(m);
  }

  /** Any text is accepted exactly if it is a JSON object whose members give a record that is proper but for the
      spelling of its id; and then it is taken as that record with the id in canonical form. */
  lemma AcceptedIff(text: string, m: Message)
    ensures FromWire(text) == Success(m) <==>
            && Json.ParseObject(text).Some? && FromMembers(Json.ParseObject(text).value).Some?
            && var sent := FromMembers(Json.ParseObject(text).value).value;
               Ulid.Normalize(sent.id) == Success(m.id) && m == sent.(id := m.id) && Proper(m)
  {
    if Json.ParseObject(text).Some? && FromMembers(Json.ParseObject(text).value).Some? {
      var sent := FromMembers(Json.ParseObject(text).value).value;
      Ulid.NormalizeIsProjection(sent.id);
      ReceiveIff(sent, m);
    }
  }

  lemma ReceiveIff(sent: Message, m: Message)
    requires InRange(sent)
    ensures Receive(sent) == Success(m) <==>
            Ulid.Normalize(sent.id) == Success(m.id) && m == sent.(id := m.id) && Proper(m)
  {
    Ulid.NormalizeIsProjection(sent.id);
    if Ulid.Normalize(sent.id).Success? {
      var taken := sent.(id := Ulid.Normalize(sent.id).value);
      WellFormedIff(taken);
      assert ValidateKind(taken) == ValidateKind(sent);
    }
  }

  // ----- which error

  datatype Rule = Rule(holds: bool, error: Error)

  /** The error of the first rule that does not hold. */
  function FirstBroken(rules: seq<Rule>): (e: Option<Error>)
    decreases |rules|
  {
    if rules == [] then None else if !rules[0].holds then Some(rules[0].error) else FirstBroken(rules[1..])
  }

  ghost function DropRules(m: Message): (rules: seq<Rule>) {
    [Rule(m.body != "", FilenameEmpty),
     Rule(StaysInside(m.body) && '\0' !in m.body, FilenameInvalid),
     Rule(m.blobHash.Some?, BlobHashMissing),
     Rule(m.blobHash.Some? && IsHash(m.blobHash.value), BlobHashInvalid),
     Rule(m.blobSize.Some?, BlobSizeMissing),
     Rule(m.blobSize.Some? && m.blobSize.value <= 1024 * 1024 * 1024, BlobTooLarge)]
  }

  ghost function KindRules(m: Message): (rules: seq<Rule>) {
    if m.kind == "chat" then [Rule(|Utf8.Encode(m.body)| <= 8 * 1024, BodyTooLarge)]
    else if m.kind == "file_drop" then DropRules(m)
    else if m.kind == "keepalive" then []
    else [Rule(false, UnknownKind(m.kind))]
  }

  function NickRules(nick: Option<string>): (rules: seq<Rule>) {
    if nick.None? then []
    else [Rule(nick.value != "", NickEmpty), Rule(|Utf8.Encode(nick.value)| <= 64, NickTooLarge),
          Rule(AllPrinting(nick.value), NickInvalid)]
  }

  lemma {:induction false} FirstOfTwo(a: seq<Rule>, b: seq<Rule>)
    ensures FirstBroken(a + b) == if FirstBroken(a).Some? then FirstBroken(a) else FirstBroken(b)
    decreases |a|
  {
    if a == [] {
      assert a + b == b;
    } else {
      assert (a + b)[1..] == a[1..] + b;
      FirstOfTwo(a[1..], b);
    }
  }

  lemma First(rule: Rule, more: seq<Rule>)
    ensures FirstBroken([rule] + more) == if !rule.holds then Some(rule.error) else FirstBroken(more)
  {
    assert ([rule] + more)[1..] == more;
  }

  lemma DropErrors(m: Message)
    requires m.kind == "file_drop"
    ensures ValidateKind(m) == FirstBroken(DropRules(m))
  {
    KindsDiffer();
    FilenameIff(m.body);
    if m.blobHash.Some? {
      HashIff(m.blobHash.value);
    }
    var r := DropRules(m);
    First(r[5], []);
    First(r[4], [r[5]]);
    First(r[3], [r[4], r[5]]);
    First(r[2], [r[3], r[4], r[5]]);
    First(r[1], [r[2], r[3], r[4], r[5]]);
    First(r[0], [r[1], r[2], r[3], r[4], r[5]]);
    assert r == [r[0]] + [r[1], r[2], r[3], r[4], r[5]];
    assert [r[1]] + [r[2], r[3], r[4], r[5]] == [r[1], r[2], r[3], r[4], r[5]];
    assert [r[2]] + [r[3], r[4], r[5]] == [r[2], r[3], r[4], r[5]];
    assert [r[3]] + [r[4], r[5]] == [r[3], r[4], r[5]] && [r[4]] + [r[5]] == [r[4], r[5]];
    assert [r[5]] + [] == [r[5]];
  }

  lemma KindErrors(m: Message)
    ensures ValidateKind(m) == FirstBroken(KindRules(m))
  {
    KindsDiffer();
    if m.kind == "file_drop" {
      DropErrors(m);
    } else if KindRules(m) != [] {
      assert KindRules(m) == [KindRules(m)[0]] + [];
      First(KindRules(m)[0], []);
    }
  }

  lemma NickErrors(nick: string)
    ensures ValidateNick(nick) == FirstBroken(NickRules(Some(nick)))
  {
    NickIff(nick);
    var r := NickRules(Some(nick));
    assert r == [r[0]] + [r[1], r[2]] && [r[1], r[2]] == [r[1]] + [r[2]] && [r[2]] == [r[2]] + [];
    First(r[0], [r[1], r[2]]);
    First(r[1], [r[2]]);
    First(r[2], []);
  }

  /** The record with its id in canonical form, if that is an id. */
  function Identified(m: Message): (r: Result<Message, Error>) {
    var u := Ulid.Normalize(m.id);
    if u.Success? then Success(m.(id := u.value)) else Failure(BadId(u.error))
  }

  /** A parsed record is refused with the error of the first rule it breaks: the version, then the rules of its
      kind, then those of nicks, then the id. */
  lemma ReceiveErrors(m: Message)
    ensures var broken := FirstBroken([Rule(m.v == 1, VersionMismatch(m.v))] + (KindRules(m) + NickRules(m.nick)));
      Receive(m) ==
      if broken.Some? then Failure(broken.value) else Identified(m)
  {
    KindErrors(m);
    if m.nick.Some? {
      NickErrors(m.nick.value);
    }
    First(Rule(m.v == 1, VersionMismatch(m.v)), KindRules(m) + NickRules(m.nick));
    FirstOfTwo(KindRules(m), NickRules(m.nick));
  }

  // ----- constructors

  /** A file drop is built exactly from a name that stays inside, a hash, at most 1 GiB and an id. */
  lemma NewFileDropIff(id: string, author: string, ts: int, name: string, hash: string, size: int)
    requires IsTimestamp(ts) && 0 <= size < 0x1_0000_0000_0000_0000
    ensures NewFileDrop(id, author, ts, name, hash, size).Success? <==>
            ProperDrop(name, Some(hash), Some(size)) && Ulid.Normalize(id).Success?
    ensures NewFileDrop(id, author, ts, name, hash, size).Success? ==>
            NewFileDrop(id, author, ts, name, hash, size).value ==
            Message(1, Ulid.Normalize(id).value, author, ts, name, "file_drop", None, Some(hash), Some(size))
  {
    FilenameIff(name);
    HashIff(hash);
  }

  lemma NewIff(id: string, author: string, ts: int, body: string)
    requires IsTimestamp(ts)
    ensures New(id, author, ts, body) ==
            if |Utf8.Encode(body)| > 8 * 1024 then Failure(BodyTooLarge)
            else Identified(Message(1, id, author, ts, body, "chat", None, None, None))
    ensures NewKeepalive(id, author, ts) == Identified(Message(1, id, author, ts, "", "keepalive", None, None, None))
  {
  }

  /** A nick can be attached exactly if it is one. */
  lemma WithNickIff(m: Message, nick: Option<string>)
    ensures WithNick(m, nick).Success? <==> (nick.Some? ==> IsNick(nick.value))
    ensures WithNick(m, nick).Success? ==> WithNick(m, nick).value == m.(nick := nick)
  {
    if nick.Some? {
      NickIff(nick.value);
    }
  }

  // ----- the members of a record

  /** Member `i` is the only one of its name. */
  predicate OnlyAt(ms: seq<Json.Member>, name: string, i: nat) {
    i < |ms| && ms[i].name == name && forall j :: 0 <= j < |ms| && j != i ==> ms[j].name != name
  }

  ghost predicate Holds(ms: seq<Json.Member>, name: string, value: Json.JValue) {
    exists i: nat :: OnlyAt(ms, name, i) && ms[i].value == value
  }

  predicate Absent(ms: seq<Json.Member>, name: string) {
    forall i :: 0 <= i < |ms| ==> ms[i].name != name
  }

  lemma {:induction false} MissingIff(ms: seq<Json.Member>, name: string)
    ensures Find(ms, name) == Missing <==> Absent(ms, name)
    decreases |ms|
  {
    if ms != [] {
      MissingIff(ms[1..], name);
      assert forall i :: 1 <= i < |ms| ==> ms[i] == ms[1..][i - 1];
    }
  }

  lemma {:induction false} FoundAt(ms: seq<Json.Member>, name: string) returns (i: nat)
    requires Find(ms, name).Once?
    ensures OnlyAt(ms, name, i) && ms[i].value == Find(ms, name).value
    decreases |ms|
  {
    if ms[0].name == name {
      MissingIff(ms[1..], name);
      i := 0;
      assert forall j :: 1 <= j < |ms| ==> ms[j] == ms[1..][j - 1];
    } else {
      i := FoundAt(ms[1..], name);
      i := i + 1;
      assert forall j :: 1 <= j < |ms| ==> ms[j] == ms[1..][j - 1];
    }
  }

  lemma HoldsIff(ms: seq<Json.Member>, name: string, value: Json.JValue)
    ensures Find(ms, name) == Once(value) <==> Holds(ms, name, value)
  {
    if Find(ms, name) == Once(value) {
      var i := FoundAt(ms, name);
    }
    if i: nat :| OnlyAt(ms, name, i) && ms[i].value == value {
      FindAt(ms, i);
    }
  }

  /** A field that may be left out, or be null. */
  ghost predicate MayHold(ms: seq<Json.Member>, name: string, value: Option<Json.JValue>) {
    if value.Some? then Holds(ms, name, value.value) else Absent(ms, name) || Holds(ms, name, Json.JNull)
  }

  lemma MayHoldIff(ms: seq<Json.Member>, name: string, s: Option<string>, n: Option<int>, limit: int)
    ensures OptionField(Find(ms, name)) == Some(s) <==> MayHold(ms, name, StringValue(s))
    ensures OptionIntField(Find(ms, name), 0, limit) == Some(n) <==>
            MayHold(ms, name, IntValue(n)) && (n.Some? ==> 0 <= n.value < limit)
  {
    MissingIff(ms, name);
    HoldsIff(ms, name, Json.JNull);
    if s.Some? {
      HoldsIff(ms, name, Json.JStr(s.value));
    }
    if n.Some? {
      HoldsIff(ms, name, Json.JInt(n.value));
    }
  }

  /** Which members make which record: each field just once under its own name, with a value of its own type and
      range; the kind may be left out, and the last three may also be null.  Members of other names do not matter. */
  ghost predicate Describes(ms: seq<Json.Member>, m: Message) {
    && InRange(m)
    && Holds(ms, "v", Json.JInt(m.v)) && Holds(ms, "id", Json.JStr(m.id)) && Holds(ms, "author", Json.JStr(m.author))
    && Holds(ms, "ts", Json.JInt(m.ts)) && Holds(ms, "body", Json.JStr(m.body))
    && (Holds(ms, "kind", Json.JStr(m.kind)) || (Absent(ms, "kind") && m.kind == "chat"))
    && MayHold(ms, "nick", StringValue(m.nick)) && MayHold(ms, "blob_hash", StringValue(m.blobHash))
    && MayHold(ms, "blob_size", IntValue(m.blobSize))
  }

  lemma StringFieldIff(ms: seq<Json.Member>, name: string, s: string)
    ensures StringField(Find(ms, name)) == Some(s) <==> Holds(ms, name, Json.JStr(s))
  {
    HoldsIff(ms, name, Json.JStr(s));
  }

  lemma IntFieldIff(ms: seq<Json.Member>, name: string, n: int, low: int, high: int)
    ensures IntField(Find(ms, name), low, high) == Some(n) <==> Holds(ms, name, Json.JInt(n)) && low <= n < high
  {
    HoldsIff(ms, name, Json.JInt(n));
  }

  lemma KindFieldIff(ms: seq<Json.Member>, kind: string)
    ensures (if Find(ms, "kind") == Missing then Some("chat") else StringField(Find(ms, "kind"))) == Some(kind) <==>
            Holds(ms, "kind", Json.JStr(kind)) || (Absent(ms, "kind") && kind == "chat")
  {
    MissingIff(ms, "kind");
    HoldsIff(ms, "kind", Json.JStr(kind));
  }

  lemma FromMembersIff(ms: seq<Json.Member>, m: Message)
    ensures FromMembers(ms) == Some(m) <==> Describes(ms, m)
  {
    IntFieldIff(ms, "v", m.v, 0, 0x1_0000_0000);
    StringFieldIff(ms, "id", m.id);
    StringFieldIff(ms, "author", m.author);
    IntFieldIff(ms, "ts", m.ts, -0x8000_0000_0000_0000, 0x8000_0000_0000_0000);
    StringFieldIff(ms, "body", m.body);
    KindFieldIff(ms, m.kind);
    MayHoldIff(ms, "nick", m.nick, None, 0);
    MayHoldIff(ms, "blob_hash", m.blobHash, None, 0);
    MayHoldIff(ms, "blob_size", None, m.blobSize, 0x1_0000_0000_0000_0000);
  }
}
