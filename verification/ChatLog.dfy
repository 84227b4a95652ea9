/** The append-only chat log (`log_io.rs`): one canonical message a line, read back above a cursor. */
module ChatLog {
  import opened Message
  import opened Wrappers
  import Sequences
  import Strings
  import Utf8

  type byte = Utf8.byte

  const NEWLINE: byte := 10
  const CARRIAGE_RETURN: byte := 13

  function Payload(m: Message): (bytes: seq<byte>) {
    Utf8.Encode(ToCanonicalJson(m)) + [NEWLINE]
  }

  /** Where the first line of `s` ends. */
  function LineEnd(s: seq<byte>): (n: nat)
    ensures n <= |s| && (n < |s| ==> s[n] == NEWLINE)
    ensures forall i :: 0 <= i < n ==> s[i] != NEWLINE
    decreases |s|
  {
    if s == [] || s[0] == NEWLINE then 0 else 1 + LineEnd(s[1..])
  }

  /** A line without its newline; the last line of a file may have none. */
  datatype Line = Line(bytes: seq<byte>, terminated: bool)

  function FirstLine(s: seq<byte>): (line: Line) {
    Line(s[..LineEnd(s)], LineEnd(s) < |s|)
  }

  function AfterLine(s: seq<byte>): (rest: seq<byte>)
    requires s != []
    ensures |rest| < |s|
  {
    if LineEnd(s) < |s| then s[LineEnd(s) + 1..] else []
  }

  function Lines(s: seq<byte>): (lines: seq<Line>)
    decreases |s|
  {
    if s == [] then [] else [FirstLine(s)] + Lines(AfterLine(s))
  }

  /** The text of a line, without the carriage return before its newline. */
  function LineText(line: Line): (text: seq<byte>) {
    var n := |line.bytes|;
    if line.terminated && n > 0 && line.bytes[n - 1] == CARRIAGE_RETURN then line.bytes[..n - 1] else line.bytes
  }

  /** The message on a line; `None` for an empty line, bytes that are not UTF-8, or a malformed message. */
  function LineMessage(line: Line): (m: Option<Message>)
    ensures m.Some? ==> WellFormed(m.value)
  {
    var text := Utf8.Decode(LineText(line));
    if text.None? || text.value == "" || FromWire(text.value).Failure? then None
    else
      AcceptedIsWellFormed(text.value);
      Some(FromWire(text.value).value)
  }

  /** The cursor is exclusive. */
  predicate Passes(m: Message, cursor: Option<string>) {
    cursor.None? || Strings.Less(cursor.value, m.id)
  }

  function Passing(m: Option<Message>, cursor: Option<string>): (ms: seq<Message>) {
    if m.Some? && Passes(m.value, cursor) then [m.value] else []
  }

  function Keep(cursor: Option<string>): (f: Line -> seq<Message>) {
    (line: Line) => Passing(LineMessage(line), cursor)
  }

  function FlatMap<A, B>(xs: seq<A>, f: A -> seq<B>): (ys: seq<B>)
    decreases |xs|
  {
    if xs == [] then [] else f(xs[0]) + FlatMap(xs[1..], f)
  }

  /** The messages above the cursor on the lines of `s`, in order. */
  function Scan(s: seq<byte>, cursor: Option<string>): (ms: seq<Message>) {
    FlatMap(Lines(s), Keep(cursor))
  }

  /** The loop over the lines of a reader. */
  method EachLine<M>(content: seq<byte>, f: Line -> seq<M>) returns (out: seq<M>)
    ensures out == FlatMap(Lines(content), f)
  {
    out := [];
    var rest := content;
    while rest != []
      invariant out + FlatMap(Lines(rest), f) == FlatMap(Lines(content), f)
      decreases |rest|
    {
      var line := FirstLine(rest);
      assert Lines(rest)[1..] == Lines(AfterLine(rest));
      out := out + f(line);
      rest := AfterLine(rest);
    }
  }

  class Log {
    var content: seq<byte>

    constructor ()
      ensures content == []
    {
      content := [];
    }

    /** The guard of the source against a raw newline never fires. */
    method Append(m: Message) returns (ok: bool)
      modifies this
      ensures ok && content == old(content) + Payload(m)
    {
      var payload := Utf8.Encode(ToCanonicalJson(m));
      EncodingHasNoNewline(m);
      if NEWLINE in payload {
        return false;
      }
      content := content + (payload + [NEWLINE]);
      ok := true;
    }

    method ReadSince(cursor: Option<string>) returns (out: seq<Message>)
      ensures out == Scan(content, cursor)
    {
      out := EachLine(content, Keep(cursor));
    }
  }

  // ----- what a read finds

  lemma EncodingHasNoNewline(m: Message)
    ensures NEWLINE !in Utf8.Encode(ToCanonicalJson(m))
  {
    EncodingIsOneLine(m);
    Utf8.AsciiStaysApart(ToCanonicalJson(m), NEWLINE);
  }

  lemma {:induction false} LineEndAt(a: seq<byte>, b: seq<byte>)
    requires forall i :: 0 <= i < |a| ==> a[i] != NEWLINE
    ensures LineEnd(a + [NEWLINE] + b) == |a|
    decreases |a|
  {
    if a != [] {
      assert (a + [NEWLINE] + b)[1..] == a[1..] + [NEWLINE] + b;
      LineEndAt(a[1..], b);
    }
  }

  predicate WholeLines(s: seq<byte>) {
    s == [] || s[|s| - 1] == NEWLINE
  }

  lemma FirstOfConcat(a: seq<byte>, b: seq<byte>)
    requires WholeLines(a) && a != []
    ensures FirstLine(a + b) == FirstLine(a) && AfterLine(a + b) == AfterLine(a) + b && WholeLines(AfterLine(a))
  {
    var n := LineEnd(a);
    var line, rest := a[..n], a[n + 1..];
    assert a + b == line + [NEWLINE] + (rest + b);
    LineEndAt(line, rest + b);
    assert (a + b)[..n] == line && (a + b)[n + 1..] == rest + b;
  }

  lemma LinesStep(s: seq<byte>, first: Line, rest: seq<byte>)
    requires s != [] && FirstLine(s) == first && AfterLine(s) == rest
    ensures Lines(s) == [first] + Lines(rest)
  {
  }

  lemma {:induction false} LinesConcat(a: seq<byte>, b: seq<byte>)
    requires WholeLines(a)
    ensures Lines(a + b) == Lines(a) + Lines(b)
    decreases |a|
  {
    if a == [] {
      assert a + b == b;
    } else {
      var first, rest := FirstLine(a), AfterLine(a);
      FirstOfConcat(a, b);
      LinesConcat(rest, b);
      LinesStep(a, first, rest);
      LinesStep(a + b, first, rest + b);
      Sequences.Associate([first], Lines(rest), Lines(b));
    }
  }

  lemma {:induction false} FlatMapConcat<A, B>(xs: seq<A>, ys: seq<A>, f: A -> seq<B>)
    ensures FlatMap(xs + ys, f) == FlatMap(xs, f) + FlatMap(ys, f)
    decreases |xs|
  {
    if xs == [] {
      assert xs + ys == ys;
    } else {
      assert (xs + ys)[1..] == xs[1..] + ys;
      FlatMapConcat(xs[1..], ys, f);
    }
  }

  lemma FlatMapOne<A, B>(x: A, f: A -> seq<B>)
    ensures FlatMap([x], f) == f(x)
  {
    assert [x][1..] == [];
  }

  /** Scanning whole lines and then more. */
  lemma ScanConcat(a: seq<byte>, b: seq<byte>, cursor: Option<string>)
    requires WholeLines(a)
    ensures Scan(a + b, cursor) == Scan(a, cursor) + Scan(b, cursor)
  {
    LinesConcat(a, b);
    FlatMapConcat(Lines(a), Lines(b), Keep(cursor));
  }

  lemma ScanLine(line: seq<byte>, cursor: Option<string>)
    requires NEWLINE !in line
    ensures Scan(line + [NEWLINE], cursor) == Passing(LineMessage(Line(line, true)), cursor)
  {
    var s := line + [NEWLINE];
    LineEndAt(line, []);
    assert s == s + [];
    assert s[..|line|] == line && AfterLine(s) == [];
    assert Lines(s) == [Line(line, true)];
    FlatMapOne(Line(line, true), Keep(cursor));
  }

  lemma PayloadIsRead(m: Message)
    requires WellFormed(m)
    ensures LineMessage(Line(Utf8.Encode(ToCanonicalJson(m)), true)) == Some(m)
  {
    var text := ToCanonicalJson(m);
    var bytes := Utf8.Encode(text);
    EncodingIsOneLine(m);
    Utf8.AsciiStaysApart(text, CARRIAGE_RETURN);
    assert bytes != [] ==> bytes[|bytes| - 1] != CARRIAGE_RETURN;
    Utf8.DecodeEncode(text);
    RoundTripIff(m);
  }

  /** Appending to whole lines adds exactly that message to what any cursor below its id reads. */
  lemma AppendThenRead(content: seq<byte>, m: Message, cursor: Option<string>)
    requires WholeLines(content) && WellFormed(m)
    ensures WholeLines(content + Payload(m))
    ensures Scan(content + Payload(m), cursor) == Scan(content, cursor) + Passing(Some(m), cursor)
  {
    EncodingHasNoNewline(m);
    PayloadIsRead(m);
    ScanLine(Utf8.Encode(ToCanonicalJson(m)), cursor);
    ScanConcat(content, Payload(m), cursor);
  }

  /** After a write that stopped part-way, the next message shares the torn line; every other line is unharmed. */
  lemma AppendAfterTornLine(whole: seq<byte>, torn: seq<byte>, m: Message, cursor: Option<string>)
    requires WholeLines(whole) && NEWLINE !in torn
    ensures Scan(whole + torn + Payload(m), cursor) ==
            Scan(whole, cursor) + Passing(LineMessage(Line(torn + Utf8.Encode(ToCanonicalJson(m)), true)), cursor)
  {
    EncodingHasNoNewline(m);
    var line := torn + Utf8.Encode(ToCanonicalJson(m));
    assert whole + torn + Payload(m) == whole + (line + [NEWLINE]);
    ScanConcat(whole, line + [NEWLINE], cursor);
    ScanLine(line, cursor);
  }

  /** A whole line of a log: an appended message, or noise that is no acceptable message. */
  datatype Entry = Appended(m: Message) | Noise(line: seq<byte>)

  predicate Legal(e: Entry) {
    match e
    case Appended(m) => WellFormed(m)
    case Noise(line) => NEWLINE !in line && LineMessage(Line(line, true)) == None
  }

  function EntryBytes(e: Entry): (bytes: seq<byte>) {
    match e
    case Appended(m) => Payload(m)
    case Noise(line) => line + [NEWLINE]
  }

  function Contents(es: seq<Entry>): (bytes: seq<byte>)
    decreases |es|
  {
    if es == [] then [] else Contents(es[..|es| - 1]) + EntryBytes(es[|es| - 1])
  }

  function EntryMessage(e: Entry): (m: Option<Message>) {
    match e
    case Appended(m) => Some(m)
    case Noise(_) => None
  }

  function AppendedAbove(es: seq<Entry>, cursor: Option<string>): (ms: seq<Message>)
    decreases |es|
  {
    if es == [] then [] else AppendedAbove(es[..|es| - 1], cursor) + Passing(EntryMessage(es[|es| - 1]), cursor)
  }

  lemma NoiseThenRead(content: seq<byte>, line: seq<byte>, cursor: Option<string>)
    requires WholeLines(content) && NEWLINE !in line && LineMessage(Line(line, true)) == None
    ensures Scan(content + (line + [NEWLINE]), cursor) == Scan(content, cursor)
  {
    ScanLine(line, cursor);
    ScanConcat(content, line + [NEWLINE], cursor);
  }

  lemma EntryThenRead(content: seq<byte>, e: Entry, cursor: Option<string>)
    requires WholeLines(content) && Legal(e)
    ensures WholeLines(content + EntryBytes(e))
    ensures Scan(content + EntryBytes(e), cursor) == Scan(content, cursor) + Passing(EntryMessage(e), cursor)
  {
    match e {
      case Appended(m) => AppendThenRead(content, m, cursor);
      case Noise(line) => NoiseThenRead(content, line, cursor);
    }
  }

  /** Reading gives exactly the appended messages above the cursor, in order, whatever noise lies between. */
  lemma {:induction false} ReadsWhatWasAppended(es: seq<Entry>, cursor: Option<string>)
    requires forall i :: 0 <= i < |es| ==> Legal(es[i])
    ensures WholeLines(Contents(es))
    ensures Scan(Contents(es), cursor) == AppendedAbove(es, cursor)
    decreases |es|
  {
    if es != [] {
      ReadsWhatWasAppended(es[..|es| - 1], cursor);
      EntryThenRead(Contents(es[..|es| - 1]), es[|es| - 1], cursor);
    }
  }

  /** On any bytes at all, a cursor only filters what a read without a cursor gives. */
  lemma {:induction false} CursorOnlyFilters(lines: seq<Line>, cursor: string)
    ensures FlatMap(lines, Keep(Some(cursor))) == FlatMap(FlatMap(lines, Keep(None)), Above(cursor))
    decreases |lines|
  {
    if lines != [] {
      CursorOnlyFilters(lines[1..], cursor);
      FlatMapConcat(Keep(None)(lines[0]), FlatMap(lines[1..], Keep(None)), Above(cursor));
      FilterLine(LineMessage(lines[0]), cursor);
    }
  }

  function Above(cursor: string): (f: Message -> seq<Message>) {
    (m: Message) => Passing(Some(m), Some(cursor))
  }

  lemma FilterLine(m: Option<Message>, cursor: string)
    ensures Passing(m, Some(cursor)) == FlatMap(Passing(m, None), Above(cursor))
  {
    if m.Some? {
      FlatMapOne(m.value, Above(cursor));
    }
  }

  lemma {:induction false} ReadsWellFormed(lines: seq<Line>, cursor: Option<string>)
    ensures forall m :: m in FlatMap(lines, Keep(cursor)) ==> WellFormed(m)
    decreases |lines|
  {
    if lines != [] {
      ReadsWellFormed(lines[1..], cursor);
    }
  }

  // ----- which lines are messages

  /** What the receiver makes of a text, without its reason for refusing. */
  function Accepted(text: string): (m: Option<Message>) {
    if FromWire(text).Success? then Some(FromWire(text).value) else None
  }

  lemma LastOfChar(c: char, e: seq<byte>)
    requires e == Utf8.EncodeChar(c)
    ensures e[|e| - 1] == CARRIAGE_RETURN <==> c == '\r'
  {
  }

  predicate EndsInReturn(bytes: seq<byte>) {
    bytes != [] && bytes[|bytes| - 1] == CARRIAGE_RETURN
  }

  lemma LastOfTwo(a: seq<byte>, b: seq<byte>)
    ensures EndsInReturn(a + b) <==> EndsInReturn(if b == [] then a else b)
  {
    if b == [] {
      assert a + b == a;
    }
  }

  lemma {:induction false} LastByte(t: string)
    ensures EndsInReturn(Utf8.Encode(t)) <==> t != "" && t[|t| - 1] == '\r'
    ensures t != "" ==> Utf8.Encode(t) != []
    decreases |t|
  {
    if t != "" {
      LastByte(t[1..]);
      LastOfChar(t[0], Utf8.EncodeChar(t[0]));
      LastOfTwo(Utf8.EncodeChar(t[0]), Utf8.Encode(t[1..]));
    }
  }

  lemma Endings(bytes: seq<byte>)
    ensures LineText(Line(bytes, false)) == bytes
    ensures bytes == [] || bytes[|bytes| - 1] != CARRIAGE_RETURN ==> LineText(Line(bytes, true)) == bytes
    ensures LineText(Line(bytes + [CARRIAGE_RETURN], true)) == bytes
  {
  }

  lemma TextOfLine(line: Line, t: string)
    requires LineText(line) == Utf8.Encode(t)
    ensures LineMessage(line) == Accepted(t)
  {
    Utf8.DecodeEncode(t);
  }

  /** A line is the message that the receiver accepts of its text, whether it ends in a newline, in a carriage return
      and a newline, or with the file. */
  lemma LineIsText(t: string, bytes: seq<byte>)
    requires bytes == Utf8.Encode(t)
    ensures LineMessage(Line(bytes, false)) == Accepted(t)
    ensures t == "" || t[|t| - 1] != '\r' ==> LineMessage(Line(bytes, true)) == Accepted(t)
    ensures LineMessage(Line(bytes + [CARRIAGE_RETURN], true)) == Accepted(t)
  {
    Endings(bytes);
    TextOfLine(Line(bytes, false), t);
    TextOfLine(Line(bytes + [CARRIAGE_RETURN], true), t);
    if t == "" || t[|t| - 1] != '\r' {
      LastByte(t);
      TextOfLine(Line(bytes, true), t);
    }
  }
}
