/** What stands in a cursor file and how it is read (`read_cursor` in `cursor_io.rs`). */
module CursorFile {
  import opened Wrappers
  import Json
  import Message
  import MessageRules
  import Ulid
  import Utf8

  type byte = Utf8.byte

  datatype Error = Unreadable | ParseError

  function TrimEnd(s: string, c: char): (t: string)
    ensures t <= s && (t == "" || t[|t| - 1] != c)
    ensures t == s <==> s == "" || s[|s| - 1] != c
    decreases |s|
  {
    if s != "" && s[|s| - 1] == c then TrimEnd(s[..|s| - 1], c) else s
  }

  /** The file is absent (`None`), or holds bytes. */
  function Read(file: Option<seq<byte>>): (r: Result<Option<string>, Error>) {
    if file.None? then Success(None)
    else
      var raw := Utf8.Decode(file.value);
      if raw.None? then Failure(Unreadable) else ReadText(TrimEnd(TrimEnd(raw.value, '\n'), '\r'))
  }

  function ReadText(trimmed: string): (r: Result<Option<string>, Error>) {
    if trimmed == "" then Success(None)
    else if trimmed[0] != '{' then Success(Some(trimmed))
    else
      var ms := Json.ParseObject(trimmed);
      var id := if ms.None? then None else Message.StringField(Message.Find(ms.value, "id"));
      if id.None? then Failure(ParseError) else Success(Some(id.value))
  }

  /** The bare form that `write_atomically` writes. */
  function Written(v: string): (bytes: seq<byte>) {
    Utf8.Encode(v)
  }

  lemma {:induction false} FoundIsMember(ms: seq<Json.Member>, name: string)
    ensures Message.Find(ms, name).Once? ==> exists m :: m in ms && m.value == Message.Find(ms, name).value
    decreases |ms|
  {
    if ms != [] {
      FoundIsMember(ms[1..], name);
      assert ms[0] in ms;
    }
  }

  /** No object form reads as its own text. */
  lemma ObjectFormIsNotItself(text: string)
    requires text != "" && text[0] == '{'
    ensures ReadText(text) != Success(Some(text))
  {
    var ms := Json.ParseObject(text);
    if ms.Some? {
      Json.ObjectFits(text);
      FoundIsMember(ms.value, "id");
    }
  }

  /** A value written to the cursor file reads back as itself exactly if it is not empty, is not taken for
      the object form, and loses nothing to the trimming. */
  lemma ReadsBackIff(v: string)
    ensures Read(Some(Written(v))) == Success(Some(v)) <==>
            v != "" && v[0] != '{' && v[|v| - 1] != '\n' && v[|v| - 1] != '\r'
  {
    Utf8.DecodeEncode(v);
    var trimmed := TrimEnd(TrimEnd(v, '\n'), '\r');
    if v != "" && v[|v| - 1] != '\n' && v[|v| - 1] != '\r' {
      assert trimmed == v;
      if v[0] == '{' {
        ObjectFormIsNotItself(v);
      }
    } else if trimmed != "" && trimmed[0] == '{' {
      var ms := Json.ParseObject(trimmed);
      if ms.Some? {
        Json.ObjectFits(trimmed);
        FoundIsMember(ms.value, "id");
      }
    }
  }

  /** The ids of well-formed messages, which is all that the hook writes, always read back. */
  lemma UlidReadsBack(id: string)
    requires Ulid.Canonical(id)
    ensures Read(Some(Written(id))) == Success(Some(id))
  {
    assert Ulid.IsCrockford(id[0]) && Ulid.IsCrockford(id[|id| - 1]);
    ReadsBackIff(id);
  }

  // ----- every file

  predicate AllAre(s: string, c: char) {
    forall i :: 0 <= i < |s| ==> s[i] == c
  }

  predicate EndsIn(s: string, c: char) {
    s != "" && s[|s| - 1] == c
  }

  lemma {:induction false} TrimmedTail(s: string, tail: string, c: char)
    requires AllAre(tail, c) && !EndsIn(s, c)
    ensures TrimEnd(s + tail, c) == s
    decreases |tail|
  {
    if tail == "" {
      assert s + tail == s;
    } else {
      var n := |tail| - 1;
      assert (s + tail)[..|s| + n] == s + tail[..n];
      TrimmedTail(s, tail[..n], c);
    }
  }

  /** The text is a JSON object with just one `id`, and that is this string. */
  ghost predicate ObjectWithId(text: string, id: string) {
    Json.ParseObject(text).Some? && MessageRules.Holds(Json.ParseObject(text).value, "id", Json.JStr(id))
  }

  lemma ObjectIff(text: string, id: string)
    requires text != "" && text[0] == '{'
    ensures ReadText(text) == Success(Some(id)) <==> ObjectWithId(text, id)
    ensures ReadText(text).Failure? ==> ReadText(text) == Failure(ParseError)
  {
    if Json.ParseObject(text).Some? {
      MessageRules.StringFieldIff(Json.ParseObject(text).value, "id", id);
    }
  }

  /** What any file reads as.  An absent one is no cursor; one that is not UTF-8 cannot be read.  Otherwise let
      `core` be its text without the newlines at its end, and then without the carriage returns: an empty core is no
      cursor, an object gives its `id`, and any other core is the cursor. */
  lemma ReadIff(core: string, feeds: string, newlines: string, bytes: seq<byte>)
    requires AllAre(feeds, '\r') && AllAre(newlines, '\n') && !EndsIn(core, '\r') && !EndsIn(core + feeds, '\n')
    ensures Read(None) == Success(None)
    ensures Utf8.Decode(bytes).None? ==> Read(Some(bytes)) == Failure(Unreadable)
    ensures Read(Some(Utf8.Encode(core + feeds + newlines))) == ReadText(core)
    ensures core == "" ==> ReadText(core) == Success(None)
    ensures core != "" && core[0] != '{' ==> ReadText(core) == Success(Some(core))
    ensures core != "" && core[0] == '{' ==>
            forall id :: ReadText(core) == Success(Some(id)) <==> ObjectWithId(core, id)
    ensures core != "" && core[0] == '{' && (forall id :: !ObjectWithId(core, id)) ==>
            ReadText(core) == Failure(ParseError)
  {
    Utf8.DecodeEncode(core + feeds + newlines);
    TrimmedTail(core + feeds, newlines, '\n');
    TrimmedTail(core, feeds, '\r');
    if core != "" && core[0] == '{' {
      forall id
        ensures ReadText(core) == Success(Some(id)) <==> ObjectWithId(core, id)
      {
        ObjectIff(core, id);
      }
      assert ReadText(core) != Success(None);
    }
  }

  /** The object form of a later version reads as its id, whatever that is. */
  lemma ObjectFormReads(id: string)
    ensures var ms := [Json.Member("v", Json.JInt(1)), Json.Member("id", Json.JStr(id))];
      Read(Some(Utf8.Encode(Json.PrintObject(ms)))) == Success(Some(id))
  {
    var ms := [Json.Member("v", Json.JInt(1)), Json.Member("id", Json.JStr(id))];
    var text := Json.PrintObject(ms);
    Json.ObjectRoundTrip(ms);
    Ends(ms);
    assert text + "" == text;
    ReadIff(text, "", "", []);
    assert MessageRules.OnlyAt(ms, "id", 1);
  }

  lemma {:induction false} EndsInBrace(ms: seq<Json.Member>)
    requires forall i :: 0 <= i < |ms| ==> Json.Printable(ms[i])
    ensures EndsIn(Json.PrintMembers(ms), '}')
    decreases |ms|
  {
    if |ms| > 1 {
      EndsInBrace(ms[1..]);
    }
  }

  lemma Ends(ms: seq<Json.Member>)
    requires forall i :: 0 <= i < |ms| ==> Json.Printable(ms[i])
    ensures EndsIn(Json.PrintObject(ms), '}') && Json.PrintObject(ms)[0] == '{'
  {
    EndsInBrace(ms);
  }
}
