/** Messages (`message.rs`): constructors, canonical JSON, and the receiver's checks. */
module Message {
  import opened Json
  import opened Wrappers
  import Ulid
  import Utf8

  const PROTOCOL_VERSION: nat := 1
  const BODY_MAX_BYTES: nat := 8192
  const FILE_DROP_MAX_BYTES: nat := 0x4000_0000
  const BLOB_HASH_HEX_LEN: nat := 64
  const NICK_MAX_BYTES: nat := 64
  const KIND_CHAT: string := "chat"
  const KIND_FILE_DROP: string := "file_drop"
  const KIND_KEEPALIVE: string := "keepalive"

  datatype Message = Message(
    v: int,
    id: string,
    author: string,
    ts: int,
    body: string,
    kind: string,
    nick: Option<string>,
    blobHash: Option<string>,
    blobSize: Option<int>)

  datatype Error =
    | ParseError
    | VersionMismatch(v: int)
    | UnknownKind(kind: string)
    | BodyTooLarge
    | FilenameEmpty
    | FilenameInvalid
    | BlobHashMissing
    | BlobHashInvalid
    | BlobSizeMissing
    | BlobTooLarge
    | NickEmpty
    | NickTooLarge
    | NickInvalid
    | BadId(cause: Ulid.Error)

  /** The machine integers of the record: u32, i64 and u64. */
  predicate InRange(m: Message) {
    && 0 <= m.v < 0x1_0000_0000
    && -0x8000_0000_0000_0000 <= m.ts < 0x8000_0000_0000_0000
    && (m.blobSize.Some? ==> 0 <= m.blobSize.value < 0x1_0000_0000_0000_0000)
  }

  // ----- validators

  function ValidateBody(body: string): (e: Option<Error>) {
    if |Utf8.Encode(body)| > BODY_MAX_BYTES then Some(BodyTooLarge) else None
  }

  function ValidateFilename(name: string): (e: Option<Error>) {
    if name == "" then Some(FilenameEmpty)
    else if '/' in name || '\\' in name || '\0' in name then Some(FilenameInvalid)
    else None
  }

  predicate IsLowerHex(c: char) {
    '0' <= c <= '9' || 'a' <= c <= 'f'
  }

  function ValidateBlobHash(hash: string): (e: Option<Error>) {
    if |Utf8.Encode(hash)| != BLOB_HASH_HEX_LEN || exists i :: 0 <= i < |hash| && !IsLowerHex(hash[i])
    then Some(BlobHashInvalid)
    else None
  }

  function ValidateBlobSize(size: int): (e: Option<Error>) {
    if size > FILE_DROP_MAX_BYTES then Some(BlobTooLarge) else None
  }

  /** The control characters of Unicode: C0, DEL and C1. */
  predicate IsControl(c: char) {
    c as int < 0x20 || 0x7F <= c as int < 0xA0
  }

  function ValidateNick(nick: string): (e: Option<Error>) {
    if nick == "" then Some(NickEmpty)
    else if |Utf8.Encode(nick)| > NICK_MAX_BYTES then Some(NickTooLarge)
    else if exists i :: 0 <= i < |nick| && IsControl(nick[i]) then Some(NickInvalid)
    else None
  }

  /** The checks that depend on the kind, in the order of the receiver. */
  function ValidateKind(m: Message): (e: Option<Error>) {
    if m.kind == KIND_CHAT then ValidateBody(m.body)
    else if m.kind == KIND_FILE_DROP then
      if ValidateFilename(m.body).Some? then ValidateFilename(m.body)
      else if m.blobHash.None? then Some(BlobHashMissing)
      else if ValidateBlobHash(m.blobHash.value).Some? then ValidateBlobHash(m.blobHash.value)
      else if m.blobSize.None? then Some(BlobSizeMissing)
      else ValidateBlobSize(m.blobSize.value)
    else if m.kind == KIND_KEEPALIVE then None
    else Some(UnknownKind(m.kind))
  }

  /** What every receiver accepts and leaves unchanged. */
  predicate WellFormed(m: Message) {
    && InRange(m) && m.v == PROTOCOL_VERSION && Ulid.Canonical(m.id)
    && ValidateKind(m) == None && (m.nick.Some? ==> ValidateNick(m.nick.value) == None)
  }

  // ----- constructors

  function WithId(id: string, m: Message): (r: Result<Message, Error>)
    requires InRange(m) && m.v == PROTOCOL_VERSION && m.nick == None && ValidateKind(m) == None
    ensures r.Success? <==> Ulid.Normalize(id).Success?
    ensures r.Success? ==> WellFormed(r.value) && r.value == m.(id := r.value.id)
  {
    Ulid.NormalizeIsProjection(id);
    match Ulid.Normalize(id)
    case Success(u) => Success(m.(id := u))
    case Failure(e) => Failure(BadId(e))
  }

  predicate IsTimestamp(ts: int) {
    -0x8000_0000_0000_0000 <= ts < 0x8000_0000_0000_0000
  }

  function New(id: string, author: string, ts: int, body: string): (r: Result<Message, Error>)
    requires IsTimestamp(ts)
    ensures r.Success? <==> |Utf8.Encode(body)| <= BODY_MAX_BYTES && Ulid.Normalize(id).Success?
    ensures r.Success? ==> WellFormed(r.value) && (r.value.author, r.value.ts, r.value.body) == (author, ts, body)
  {
    if ValidateBody(body).Some? then Failure(ValidateBody(body).value)
    else WithId(id, Message(PROTOCOL_VERSION, id, author, ts, body, KIND_CHAT, None, None, None))
  }

  function NewKeepalive(id: string, author: string, ts: int): (r: Result<Message, Error>)
    requires IsTimestamp(ts)
    ensures r.Success? <==> Ulid.Normalize(id).Success?
    ensures r.Success? ==> WellFormed(r.value) && (r.value.author, r.value.ts, r.value.body) == (author, ts, "")
  {
    WithId(id, Message(PROTOCOL_VERSION, id, author, ts, "", KIND_KEEPALIVE, None, None, None))
  }

  function NewFileDrop(id: string, author: string, ts: int, filename: string, hash: string, size: int)
    : (r: Result<Message, Error>)
    requires IsTimestamp(ts) && 0 <= size < 0x1_0000_0000_0000_0000
    ensures r.Success? <==>
      && ValidateFilename(filename) == None && ValidateBlobHash(hash) == None && size <= FILE_DROP_MAX_BYTES
      && Ulid.Normalize(id).Success?
    ensures r.Success? ==> WellFormed(r.value) && (r.value.author, r.value.ts, r.value.body) == (author, ts, filename)
    ensures r.Success? ==> r.value.blobHash == Some(hash) && r.value.blobSize == Some(size)
  {
    if ValidateFilename(filename).Some? then Failure(ValidateFilename(filename).value)
    else if ValidateBlobHash(hash).Some? then Failure(ValidateBlobHash(hash).value)
    else if ValidateBlobSize(size).Some? then Failure(ValidateBlobSize(size).value)
    else WithId(id, Message(PROTOCOL_VERSION, id, author, ts, filename, KIND_FILE_DROP, None, Some(hash), Some(size)))
  }

  function WithNick(m: Message, nick: Option<string>): (r: Result<Message, Error>)
    ensures r.Success? <==> (nick.Some? ==> ValidateNick(nick.value) == None)
    ensures r.Success? ==> r.value == m.(nick := nick) && (WellFormed(m) ==> WellFormed(r.value))
  {
    if nick.Some? && ValidateNick(nick.value).Some? then Failure(ValidateNick(nick.value).value)
    else Success(m.(nick := nick))
  }

  // ----- the wire

  function OneMember(name: string, value: Option<JValue>): (ms: seq<Member>) {
    if value.None? then [] else [Member(name, value.value)]
  }

  function StringValue(s: Option<string>): (v: Option<JValue>) {
    if s.None? then None else Some(JStr(s.value))
  }

  function IntValue(n: Option<int>): (v: Option<JValue>) {
    if n.None? then None else Some(JInt(n.value))
  }

  function WireKind(m: Message): (k: Option<string>) {
    if m.kind == KIND_CHAT then None else Some(m.kind)
  }

  /** The members in canonical order; the default kind and absent options are left out. */
  function Required(m: Message): (ms: seq<Member>) {
    [Member("v", JInt(m.v)), Member("id", JStr(m.id)), Member("author", JStr(m.author)),
     Member("ts", JInt(m.ts)), Member("body", JStr(m.body))]
  }

  function Optional(m: Message): (ms: seq<Member>) {
    OneMember("kind", StringValue(WireKind(m)))
    + (OneMember("nick", StringValue(m.nick))
    + (OneMember("blob_hash", StringValue(m.blobHash))
    + OneMember("blob_size", IntValue(m.blobSize))))
  }

  function ToCanonicalJson(m: Message): (text: string) {
    PrintObject(Required(m) + Optional(m))
  }

  datatype Found = Missing | Once(value: JValue) | Repeated

  /** The value of a field; a field given twice is an error. */
  function Find(ms: seq<Member>, name: string): (f: Found)
    decreases |ms|
  {
    if ms == [] then Missing
    else
      var rest := Find(ms[1..], name);
      if ms[0].name != name then rest else if rest == Missing then Once(ms[0].value) else Repeated
  }

  function StringField(f: Found): (s: Option<string>) {
    if f.Once? && f.value.JStr? then Some(f.value.s) else None
  }

  function IntField(f: Found, low: int, high: int): (n: Option<int>) {
    if f.Once? && f.value.JInt? && low <= f.value.n < high then Some(f.value.n) else None
  }

  /** An optional field: absent, null or a string; `None` stands for anything else. */
  function OptionField(f: Found): (s: Option<Option<string>>) {
    if f == Missing || f == Once(JNull) then Some(None)
    else if StringField(f).Some? then Some(StringField(f))
    else None
  }

  function OptionIntField(f: Found, low: int, high: int): (s: Option<Option<int>>) {
    if f == Missing || f == Once(JNull) then Some(None)
    else if IntField(f, low, high).Some? then Some(IntField(f, low, high))
    else None
  }

  datatype Fields = Fields(v: Found, id: Found, author: Found, ts: Found, body: Found, kind: Found,
                           nick: Found, blobHash: Found, blobSize: Found)

  /** Unknown members are ignored. */
  function Gather(ms: seq<Member>): (f: Fields) {
    Fields(Find(ms, "v"), Find(ms, "id"), Find(ms, "author"), Find(ms, "ts"), Find(ms, "body"), Find(ms, "kind"),
           Find(ms, "nick"), Find(ms, "blob_hash"), Find(ms, "blob_size"))
  }

  function FromFields(f: Fields): (r: Option<Message>)
    ensures r.Some? ==> InRange(r.value)
  {
    var v := IntField(f.v, 0, 0x1_0000_0000);
    var id := StringField(f.id);
    var author := StringField(f.author);
    var ts := IntField(f.ts, -0x8000_0000_0000_0000, 0x8000_0000_0000_0000);
    var body := StringField(f.body);
    var kind := if f.kind == Missing then Some(KIND_CHAT) else StringField(f.kind);
    var nick := OptionField(f.nick);
    var hash := OptionField(f.blobHash);
    var size := OptionIntField(f.blobSize, 0, 0x1_0000_0000_0000_0000);
    if v.None? || id.None? || author.None? || ts.None? || body.None? || kind.None?
       || nick.None? || hash.None? || size.None? then None
    else Some(Message(v.value, id.value, author.value, ts.value, body.value, kind.value,
                      nick.value, hash.value, size.value))
  }

  function FromMembers(ms: seq<Member>): (r: Option<Message>)
    ensures r.Some? ==> InRange(r.value)
  {
    FromFields(Gather(ms))
  }

  function FromWire(text: string): (r: Result<Message, Error>) {
    var ms := ParseObject(text);
    if ms.None? then Failure(ParseError)
    else
      var m := FromMembers(ms.value);
      if m.None? then Failure(ParseError) else Receive(m.value)
  }

  function Receive(m: Message): (r: Result<Message, Error>) {
    if m.v != PROTOCOL_VERSION then Failure(VersionMismatch(m.v))
    else if ValidateKind(m).Some? then Failure(ValidateKind(m).value)
    else if m.nick.Some? && ValidateNick(m.nick.value).Some? then Failure(ValidateNick(m.nick.value).value)
    else
      match Ulid.Normalize(m.id)
      case Success(u) => Success(m.(id := u))
      case Failure(e) => Failure(BadId(e))
  }

  // ----- round trip

  lemma {:induction false} FindConcat(a: seq<Member>, b: seq<Member>, name: string)
    ensures Find(a, name) == Missing ==> Find(a + b, name) == Find(b, name)
    ensures Find(b, name) == Missing ==> Find(a + b, name) == Find(a, name)
    decreases |a|
  {
    if a == [] {
      assert a + b == b;
    } else {
      assert (a + b)[1..] == a[1..] + b;
      FindConcat(a[1..], b, name);
    }
  }

  lemma {:induction false} FindAbsent(ms: seq<Member>, name: string)
    requires forall i :: 0 <= i < |ms| ==> ms[i].name != name
    ensures Find(ms, name) == Missing
    decreases |ms|
  {
    if ms != [] {
      FindAbsent(ms[1..], name);
    }
  }

  lemma FindAt(ms: seq<Member>, k: nat)
    requires k < |ms| && forall i :: 0 <= i < |ms| && i != k ==> ms[i].name != ms[k].name
    ensures Find(ms, ms[k].name) == Once(ms[k].value)
  {
    var name := ms[k].name;
    FindAbsent(ms[..k], name);
    FindAbsent(ms[k + 1..], name);
    assert ms[k..][1..] == ms[k + 1..];
    FindConcat(ms[..k], ms[k..], name);
    assert ms[..k] + ms[k..] == ms;
  }

  lemma NamesDiffer()
    ensures "id" != "ts"
    ensures "body" != "kind" && "body" != "nick" && "kind" != "nick"
    ensures "blob_hash" != "blob_size"
  {
    assert "id"[0] != "ts"[0];
    assert "body"[0] != "kind"[0] && "body"[0] != "nick"[0] && "kind"[0] != "nick"[0];
    assert "blob_hash"[5] != "blob_size"[5];
  }

  lemma FindRequired(m: Message)
    ensures Find(Required(m), "v") == Once(JInt(m.v))
    ensures Find(Required(m), "id") == Once(JStr(m.id))
    ensures Find(Required(m), "author") == Once(JStr(m.author))
    ensures Find(Required(m), "ts") == Once(JInt(m.ts))
    ensures Find(Required(m), "body") == Once(JStr(m.body))
    ensures forall name :: name in ["kind", "nick", "blob_hash", "blob_size"] ==> Find(Required(m), name) == Missing
  {
    NamesDiffer();
    FindAt(Required(m), 0);
    FindAt(Required(m), 1);
    FindAt(Required(m), 2);
    FindAt(Required(m), 3);
    FindAt(Required(m), 4);
    forall name | name in ["kind", "nick", "blob_hash", "blob_size"]
      ensures Find(Required(m), name) == Missing
    {
      FindAbsent(Required(m), name);
    }
  }

  function FoundOption(value: Option<JValue>): (f: Found) {
    if value.None? then Missing else Once(value.value)
  }

  lemma FindOne(name: string, value: Option<JValue>, rest: seq<Member>, other: string)
    requires Find(rest, name) == Missing
    ensures Find(OneMember(name, value) + rest, name) == FoundOption(value)
    ensures other != name ==> Find(OneMember(name, value) + rest, other) == Find(rest, other)
  {
    var ms := OneMember(name, value);
    FindConcat(ms, rest, name);
    FindConcat(ms, rest, other);
    if other != name {
      FindAbsent(ms, other);
    }
    if value.Some? {
      FindAt(ms, 0);
    }
  }

  lemma FindOptional(m: Message)
    ensures Find(Optional(m), "kind") == FoundOption(StringValue(WireKind(m)))
    ensures Find(Optional(m), "nick") == FoundOption(StringValue(m.nick))
    ensures Find(Optional(m), "blob_hash") == FoundOption(StringValue(m.blobHash))
    ensures Find(Optional(m), "blob_size") == FoundOption(IntValue(m.blobSize))
    ensures forall name :: name in ["v", "id", "author", "ts", "body"] ==> Find(Optional(m), name) == Missing
  {
    NamesDiffer();
    var size := OneMember("blob_size", IntValue(m.blobSize));
    var hash := OneMember("blob_hash", StringValue(m.blobHash));
    var nick := OneMember("nick", StringValue(m.nick));
    var kind := OneMember("kind", StringValue(WireKind(m)));
    assert size + [] == size && hash + size + [] == hash + size;
    forall name | name in ["v", "id", "author", "ts", "body"]
      ensures Find(Optional(m), name) == Missing
    {
      FindAbsent(Optional(m), name);
    }
    FindOne("blob_size", IntValue(m.blobSize), [], "nick");
    FindOne("blob_size", IntValue(m.blobSize), [], "blob_hash");
    FindOne("blob_size", IntValue(m.blobSize), [], "kind");
    FindOne("blob_hash", StringValue(m.blobHash), size, "blob_size");
    FindOne("blob_hash", StringValue(m.blobHash), size, "nick");
    FindOne("blob_hash", StringValue(m.blobHash), size, "kind");
    FindOne("nick", StringValue(m.nick), hash + size, "blob_size");
    FindOne("nick", StringValue(m.nick), hash + size, "blob_hash");
    FindOne("nick", StringValue(m.nick), hash + size, "kind");
    FindOne("kind", StringValue(WireKind(m)), nick + (hash + size), "blob_size");
    FindOne("kind", StringValue(WireKind(m)), nick + (hash + size), "blob_hash");
    FindOne("kind", StringValue(WireKind(m)), nick + (hash + size), "nick");
  }

  function Sent(m: Message): (f: Fields) {
    Fields(Once(JInt(m.v)), Once(JStr(m.id)), Once(JStr(m.author)), Once(JInt(m.ts)), Once(JStr(m.body)),
           FoundOption(StringValue(WireKind(m))), FoundOption(StringValue(m.nick)),
           FoundOption(StringValue(m.blobHash)), FoundOption(IntValue(m.blobSize)))
  }

  lemma GatherSent(m: Message)
    ensures Gather(Required(m) + Optional(m)) == Sent(m)
  {
    var r, o := Required(m), Optional(m);
    FindRequired(m);
    FindOptional(m);
    FindConcat(r, o, "v");
    FindConcat(r, o, "id");
    FindConcat(r, o, "author");
    FindConcat(r, o, "ts");
    FindConcat(r, o, "body");
    FindConcat(r, o, "kind");
    FindConcat(r, o, "nick");
    FindConcat(r, o, "blob_hash");
    FindConcat(r, o, "blob_size");
  }

  lemma FieldsCarryMessage(m: Message)
    requires InRange(m)
    ensures FromFields(Sent(m)) == Some(m)
  {
    assert OptionField(FoundOption(StringValue(m.nick))) == Some(m.nick);
    assert OptionField(FoundOption(StringValue(m.blobHash))) == Some(m.blobHash);
  }

  /** Every record in the range of its machine integers is read back from its own members. */
  lemma MembersCarryMessage(m: Message)
    requires InRange(m)
    ensures FromMembers(Required(m) + Optional(m)) == Some(m)
  {
    GatherSent(m);
    FieldsCarryMessage(m);
  }

  lemma ReceivedUnchangedIff(m: Message)
    requires InRange(m)
    ensures Receive(m) == Success(m) <==> WellFormed(m)
  {
    Ulid.NormalizeIsProjection(m.id);
  }

  lemma EncodedIsReceived(m: Message)
    requires InRange(m)
    ensures FromWire(ToCanonicalJson(m)) == Receive(m)
  {
    ObjectRoundTrip(Required(m) + Optional(m));
    MembersCarryMessage(m);
  }

  /** The receiver accepts an encoded message and gives it back unchanged exactly if it is well-formed. */
  lemma RoundTripIff(m: Message)
    requires InRange(m)
    ensures FromWire(ToCanonicalJson(m)) == Success(m) <==> WellFormed(m)
  {
    EncodedIsReceived(m);
    ReceivedUnchangedIff(m);
  }

  /** Whatever the receiver accepts is well-formed, so encoding and receiving it again changes nothing. */
  lemma AcceptedIsWellFormed(text: string)
    requires FromWire(text).Success?
    ensures WellFormed(FromWire(text).value)
    ensures FromWire(ToCanonicalJson(FromWire(text).value)) == FromWire(text)
  {
    var m := FromMembers(ParseObject(text).value).value;
    assert InRange(m);
    Ulid.NormalizeIsProjection(m.id);
    RoundTripIff(FromWire(text).value);
  }

  /** The encoding holds no control character, so it is one line. */
  lemma EncodingIsOneLine(m: Message)
    ensures forall i :: 0 <= i < |ToCanonicalJson(m)| ==> ToCanonicalJson(m)[i] as int >= 0x20
  {
    PrintedHasNoControl(Required(m) + Optional(m));
  }
}
