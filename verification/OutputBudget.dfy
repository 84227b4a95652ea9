/** Fitting the hook's output into 8 KiB (`hook_format.rs`), on the bytes of its strings. */
module OutputBudget {
  import opened Strings
  import Utf8

  type byte = Utf8.byte
  type Bytes = seq<byte>

  const HOOK_OUTPUT_BUDGET: nat := 8192
  const SUMMARY_BUDGET: nat := 1536
  const FILES_INDEX_BUDGET: nat := 1536
  const NEWLINE: byte := 10

  function Ascii(s: string): (bytes: Bytes)
    requires forall i :: 0 <= i < |s| ==> s[i] as int < 0x80
    ensures |bytes| == |s|
  {
    seq(|s|, i requires 0 <= i < |s| => s[i] as int)
  }

  // ----- dropping the oldest lines

  function Marker(dropped: nat): (m: Bytes) {
    Ascii("[chatroom] (") + Ascii(Decimal(dropped)) + Ascii(" older messages skipped to fit)\n")
  }

  function Concat(lines: seq<Bytes>): (out: Bytes)
    decreases |lines|
  {
    if lines == [] then [] else lines[0] + Concat(lines[1..])
  }

  /** Dropping the first `d` lines, and saying so, stays within the budget. */
  predicate Fits(lines: seq<Bytes>, d: nat, budget: nat)
    requires 1 <= d <= |lines|
  {
    |Marker(d)| + |Concat(lines[d..])| <= budget
  }

  /** What is emitted when `d` lines are dropped; more than there are stands for emitting nothing. */
  function Output(lines: seq<Bytes>, d: nat): (out: Bytes) {
    if d == 0 then Concat(lines) else if d <= |lines| then Marker(d) + Concat(lines[d..]) else []
  }

  /** The least number of lines to drop. */
  predicate IsLeast(lines: seq<Bytes>, d: nat, budget: nat) {
    && (d == 0 <==> |Concat(lines)| <= budget)
    && (1 <= d <= |lines| ==> Fits(lines, d, budget))
    && (d > 0 ==> d <= |lines| + 1 && forall k :: 1 <= k < d && k <= |lines| ==> !Fits(lines, k, budget))
  }

  function LeastFrom(lines: seq<Bytes>, k: nat, budget: nat): (d: nat)
    requires 1 <= k <= |lines| + 1
    ensures k <= d <= |lines| + 1 && (d <= |lines| ==> Fits(lines, d, budget))
    ensures forall j :: k <= j < d ==> !Fits(lines, j, budget)
    decreases |lines| + 1 - k
  {
    if k > |lines| || Fits(lines, k, budget) then k else LeastFrom(lines, k + 1, budget)
  }

  function Dropped(lines: seq<Bytes>, budget: nat): (d: nat)
    ensures IsLeast(lines, d, budget)
  {
    if |Concat(lines)| <= budget then 0 else LeastFrom(lines, 1, budget)
  }

  function TotalLength(lines: seq<Bytes>): (n: nat)
    ensures n == |Concat(lines)|
    decreases |lines|
  {
    if lines == [] then 0 else |lines[0]| + TotalLength(lines[1..])
  }

  method FitToBudget(lines: seq<Bytes>, budget: nat) returns (out: Bytes)
    ensures out == Output(lines, Dropped(lines, budget))
  {
    if TotalLength(lines) <= budget {
      return Concat(lines);
    }
    var kept := lines;
    var dropped := 0;
    while kept != []
      invariant dropped <= |lines| && kept == lines[dropped..]
      invariant forall k :: 1 <= k <= dropped ==> !Fits(lines, k, budget)
      decreases |kept|
    {
      kept := kept[1..];
      dropped := dropped + 1;
      var marker := Marker(dropped);
      var newTotal := |marker| + TotalLength(kept);
      if newTotal <= budget {
        LeastIsUnique(lines, dropped, Dropped(lines, budget), budget);
        return marker + Concat(kept);
      }
    }
    // Nothing is left: the marker that did not fit a moment ago does not fit now.
    var marker := Marker(dropped);
    assert lines[|lines|..] == [] && !Fits(lines, |lines|, budget);
    LeastIsUnique(lines, |lines| + 1, Dropped(lines, budget), budget);
    out := if |marker| <= budget then marker else [];
  }

  predicate NoneEmpty(lines: seq<Bytes>) {
    forall i :: 0 <= i < |lines| ==> lines[i] != []
  }

  lemma MarkerGrowth(d: nat)
    ensures |Marker(d)| <= |Marker(d + 1)| <= |Marker(d)| + 1
  {
    DecimalGrowth(d);
  }

  /** Dropping one more non-empty line pays for the digit that the marker may gain. */
  lemma FitsNext(lines: seq<Bytes>, d: nat, budget: nat)
    requires NoneEmpty(lines) && 1 <= d < |lines| && Fits(lines, d, budget)
    ensures Fits(lines, d + 1, budget)
  {
    MarkerGrowth(d);
    assert lines[d..][1..] == lines[d + 1..] && lines[d..][0] == lines[d];
  }

  lemma {:induction false} FitsFrom(lines: seq<Bytes>, d: nat, e: nat, budget: nat)
    requires NoneEmpty(lines) && 1 <= d <= e <= |lines| && Fits(lines, d, budget)
    ensures Fits(lines, e, budget)
    decreases e
  {
    if d < e {
      FitsFrom(lines, d, e - 1, budget);
      FitsNext(lines, e - 1, budget);
    }
  }

  /** The suffixes that fit are just those no longer than the one that is kept. */
  lemma FitsIff(lines: seq<Bytes>, budget: nat, e: nat)
    requires NoneEmpty(lines) && |Concat(lines)| > budget && 1 <= e <= |lines|
    ensures Fits(lines, e, budget) <==> e >= Dropped(lines, budget)
  {
    if Dropped(lines, budget) <= e {
      FitsFrom(lines, Dropped(lines, budget), e, budget);
    }
  }

  lemma WithinBudget(lines: seq<Bytes>, budget: nat)
    ensures |Output(lines, Dropped(lines, budget))| <= budget
  {
  }

  /** Messages vanish without a word exactly if not even the marker that counts them all fits. */
  lemma SilentIff(lines: seq<Bytes>, budget: nat)
    requires NoneEmpty(lines) && lines != []
    ensures Output(lines, Dropped(lines, budget)) == [] <==> |Marker(|lines|)| > budget && |Concat(lines)| > budget
  {
    var d := Dropped(lines, budget);
    assert Concat(lines) != [] by { assert lines[0] != []; }
    assert lines[|lines|..] == [] && Concat([]) == [];
    if 1 <= d <= |lines| {
      FitsFrom(lines, d, |lines|, budget);
      assert Marker(d) != [];
    } else if d > |lines| {
      assert !Fits(lines, |lines|, budget);
    }
  }

  /** A larger budget never drops more. */
  lemma BudgetMonotone(lines: seq<Bytes>, budget: nat, larger: nat)
    requires budget <= larger
    ensures Dropped(lines, larger) <= Dropped(lines, budget)
  {
    LeastMonotone(lines, Dropped(lines, budget), budget, Dropped(lines, larger), larger);
  }

  lemma LeastMonotone(lines: seq<Bytes>, d: nat, budget: nat, e: nat, larger: nat)
    requires budget <= larger && IsLeast(lines, d, budget) && IsLeast(lines, e, larger)
    ensures e <= d
  {
    if 1 <= d <= |lines| {
      assert Fits(lines, d, larger);
    }
  }

  lemma LeastIsUnique(lines: seq<Bytes>, d: nat, e: nat, budget: nat)
    requires IsLeast(lines, d, budget) && IsLeast(lines, e, budget)
    ensures d == e
  {
    LeastMonotone(lines, d, budget, e, budget);
    LeastMonotone(lines, e, budget, d, budget);
  }

  // ----- cutting at the head

  /** The horizontal ellipsis, U+2026. */
  const ELLIPSIS: Bytes := [0xE2, 0x80, 0xA6]
  const SUMMARY_MARKER: Bytes := [NEWLINE] + ELLIPSIS + Ascii("(summary truncated)")
  const FILES_MARKER: Bytes := ELLIPSIS + Ascii("(older entries truncated)\n")

  /** The last character boundary at or before `limit`. */
  predicate IsCut(s: Bytes, limit: nat, cut: nat) {
    cut <= limit && Utf8.IsBoundary(s, cut) && forall i :: cut < i <= limit ==> !Utf8.IsBoundary(s, i)
  }

  function CutAt(s: Bytes, limit: nat): (cut: nat)
    ensures IsCut(s, limit, cut)
  {
    if Utf8.IsBoundary(s, limit) then limit else CutAt(s, limit - 1)
  }

  function Shortfall(max: nat, used: nat): (r: nat) {
    if max >= used then max - used else 0
  }

  /** The text itself if it is short enough; else as much of its head as leaves room for the marker. */
  function Head(s: Bytes, max: nat): (out: Bytes)
    ensures max >= 23 ==> |out| <= max
  {
    if |s| <= max then s
    else
      assert |SUMMARY_MARKER| == 23;
      s[..CutAt(s, Shortfall(max, |SUMMARY_MARKER|))] + SUMMARY_MARKER
  }

  method TruncateHead(s: Bytes, max: nat) returns (out: Bytes)
    ensures out == Head(s, max)
  {
    if |s| <= max {
      return s;
    }
    var marker: Bytes := SUMMARY_MARKER;
    var limit: nat := Shortfall(max, |marker|);
    var cut: nat := limit;
    while !Utf8.IsBoundary(s, cut) && cut > 0
      invariant cut <= limit && forall i :: cut < i <= limit ==> !Utf8.IsBoundary(s, i)
      decreases cut
    {
      cut := cut - 1;
    }
    CutIsUnique(s, limit, cut, CutAt(s, limit));
    out := s[..cut] + marker;
  }

  lemma CutIsUnique(s: Bytes, limit: nat, cut: nat, other: nat)
    requires IsCut(s, limit, cut) && IsCut(s, limit, other)
    ensures cut == other
  {
  }

  // ----- a cut falls between characters

  /** A cut text is a text: as many whole characters as fit. */
  lemma CutKeepsCharacters(t: string, limit: nat, cut: nat)
    requires limit <= |Utf8.Encode(t)| && IsCut(Utf8.Encode(t), limit, cut)
    ensures exists k :: 0 <= k <= |t| && Utf8.Encode(t)[..cut] == Utf8.Encode(t[..k]) && MostChars(t, k, limit)
  {
    Utf8.BoundaryOfText(t, cut);
    var k :| 0 <= k <= |t| && |Utf8.Encode(t[..k])| == cut;
    assert t[..k] + t[k..] == t;
    Utf8.EncodeConcat(t[..k], t[k..]);
    if k < |t| && |Utf8.Encode(t[..k + 1])| <= limit {
      Utf8.BoundaryOfText(t, |Utf8.Encode(t[..k + 1])|);
      LongerPrefix(t, k);
    }
  }

  predicate MostChars(t: string, k: nat, limit: nat) {
    k <= |t| && |Utf8.Encode(t[..k])| <= limit && (k < |t| ==> |Utf8.Encode(t[..k + 1])| > limit)
  }

  lemma LongerPrefix(t: string, k: nat)
    requires k < |t|
    ensures |Utf8.Encode(t[..k])| < |Utf8.Encode(t[..k + 1])| <= |Utf8.Encode(t)|
  {
    Utf8.EncodeConcat(t[..k], [t[k]]);
    assert t[..k] + [t[k]] == t[..k + 1];
    assert Utf8.Encode([t[k]]) == Utf8.EncodeChar(t[k]) + Utf8.Encode([t[k]][1..]);
    Utf8.EncodeConcat(t[..k + 1], t[k + 1..]);
    assert t[..k + 1] + t[k + 1..] == t;
  }

  // ----- the last lines

  /** A line other than the first starts at `i`. */
  predicate LineStart(s: Bytes, i: int) {
    1 <= i < |s| && s[i - 1] == NEWLINE && Utf8.IsBoundary(s, i)
  }

  /** The first line start from `i` on. */
  function NextLine(s: Bytes, i: nat): (start: nat)
    requires i <= |s|
    ensures i <= start <= |s| && (start < |s| ==> LineStart(s, start))
    ensures forall j :: i <= j < start ==> !LineStart(s, j)
    decreases |s| - i
  {
    if i == |s| || LineStart(s, i) then i else NextLine(s, i + 1)
  }

  /** The text itself if it is short enough; else its longest suffix of whole lines within `max`, after a
      marker; else, if not even the last line is short enough, its head. */
  function Tail(s: Bytes, max: nat): (out: Bytes)
    ensures max >= 23 ==> |out| <= max + 29
  {
    if |s| <= max then s
    else
      var start := NextLine(s, |s| - max);
      assert |FILES_MARKER| == 29;
      if start < |s| then FILES_MARKER + s[start..] else Head(s, max)
  }

  method TailLinesWithinBudget(s: Bytes, max: nat) returns (out: Bytes)
    ensures out == Tail(s, max)
  {
    if |s| <= max {
      return s;
    }
    var total, start := 0, |s|;
    var i := |s|;
    while i > 0
      invariant 0 <= i <= start <= |s| && total == |s| - start <= max
      invariant start < |s| ==> LineStart(s, start)
      invariant forall j :: i <= j < start ==> !LineStart(s, j)
    {
      i := i - 1;
      if Utf8.IsBoundary(s, i) {
        var candidate := |s| - i;
        if candidate > max {
          break;
        }
        if i == 0 || s[i - 1] == NEWLINE {
          total, start := candidate, i;
        }
      }
    }
    assert i < |s| - max || i == 0;
    assert forall j :: |s| - max <= j < start ==> !LineStart(s, j);
    assert start == NextLine(s, |s| - max);
    if total == 0 {
      out := TruncateHead(s, max);
      return;
    }
    out := FILES_MARKER + s[start..];
  }

  // ----- the whole output

  /** A room's topic, its summary and its file index; both are trimmed, and empty if there is none. */
  datatype Section = Section(topic: string, summary: Bytes, index: Bytes)

  /** How a room is told apart in a header: not at all if it is the only one. */
  function Tag(topic: string, multiRoom: bool): (tag: Bytes)
    ensures !multiRoom ==> tag == []
  {
    if multiRoom then Ascii(" ") + Utf8.Encode(LowerAscii(if |topic| <= 6 then topic else topic[..6])) else []
  }

  const SUMMARY_HEADER: Bytes := Ascii("[cc-connect summary")
  const FILES_HEADER: Bytes := Ascii("[cc-connect files")

  function Part(header: Bytes, tag: Bytes, body: Bytes): (part: Bytes)
    ensures |part| == |header| + |tag| + |body| + 4
  {
    header + tag + Ascii("]\n") + body + Ascii("\n\n")
  }

  function SummaryPart(s: Section, multiRoom: bool): (part: Bytes)
    ensures |part| <= 1559 + |Tag(s.topic, multiRoom)|
  {
    if s.summary == [] then [] else Part(SUMMARY_HEADER, Tag(s.topic, multiRoom), Head(s.summary, SUMMARY_BUDGET))
  }

  function IndexPart(s: Section, multiRoom: bool): (part: Bytes)
    ensures |part| <= 1586 + |Tag(s.topic, multiRoom)|
  {
    if s.index == [] then [] else Part(FILES_HEADER, Tag(s.topic, multiRoom), Tail(s.index, FILES_INDEX_BUDGET))
  }

  function Summaries(sections: seq<Section>, multiRoom: bool): (p: Bytes)
    decreases |sections|
  {
    if sections == [] then []
    else Summaries(sections[..|sections| - 1], multiRoom) + SummaryPart(sections[|sections| - 1], multiRoom)
  }

  function Indexes(sections: seq<Section>, multiRoom: bool): (p: Bytes)
    decreases |sections|
  {
    if sections == [] then []
    else Indexes(sections[..|sections| - 1], multiRoom) + IndexPart(sections[|sections| - 1], multiRoom)
  }

  method AddSummaries(sections: seq<Section>, multiRoom: bool) returns (preamble: Bytes)
    ensures preamble == Summaries(sections, multiRoom)
  {
    preamble := [];
    var i := 0;
    while i < |sections|
      invariant 0 <= i <= |sections| && preamble == Summaries(sections[..i], multiRoom)
    {
      var s := sections[i];
      assert sections[..i + 1][..i] == sections[..i];
      if s.summary != [] {
        var body := TruncateHead(s.summary, SUMMARY_BUDGET);
        preamble := preamble + Part(SUMMARY_HEADER, Tag(s.topic, multiRoom), body);
      }
      i := i + 1;
    }
    assert sections[..|sections|] == sections;
  }

  method AddIndexes(sections: seq<Section>, multiRoom: bool) returns (preamble: Bytes)
    ensures preamble == Indexes(sections, multiRoom)
  {
    preamble := [];
    var i := 0;
    while i < |sections|
      invariant 0 <= i <= |sections| && preamble == Indexes(sections[..i], multiRoom)
    {
      var s := sections[i];
      assert sections[..i + 1][..i] == sections[..i];
      if s.index != [] {
        var body := TailLinesWithinBudget(s.index, FILES_INDEX_BUDGET);
        preamble := preamble + Part(FILES_HEADER, Tag(s.topic, multiRoom), body);
      }
      i := i + 1;
    }
    assert sections[..|sections|] == sections;
  }

  /** All summaries come first, then all file indexes, both in the order of the topics.
      `lines` are the formatted messages of all rooms, oldest first; `external` is the length of the header
      that the caller puts before the result. */
  method Render(lines: seq<Bytes>, sections: seq<Section>, external: nat) returns (out: Bytes)
    ensures lines == [] ==> out == []
    ensures lines != [] ==>
      var preamble := PreambleOf(sections);
      && out == preamble + Output(lines, Dropped(lines, Shortfall(HOOK_OUTPUT_BUDGET, |preamble| + external)))
      && (|out| + external <= HOOK_OUTPUT_BUDGET <==> |preamble| + external <= HOOK_OUTPUT_BUDGET)
  {
    if lines == [] {
      return [];
    }
    var summaries := AddSummaries(sections, |sections| >= 2);
    var indexes := AddIndexes(sections, |sections| >= 2);
    var preamble := summaries + indexes;
    var chatBudget := Shortfall(HOOK_OUTPUT_BUDGET, |preamble| + external);
    var chat := FitToBudget(lines, chatBudget);
    WithinBudget(lines, chatBudget);
    out := preamble + chat;
  }

  // ----- how many rooms fit

  function PreambleOf(sections: seq<Section>): (preamble: Bytes) {
    Summaries(sections, |sections| >= 2) + Indexes(sections, |sections| >= 2)
  }

  /** The parts of the preamble, empty ones included: first the summary of every section in order, then the index
      of every section in order. */
  function Parts(sections: seq<Section>): (parts: seq<Bytes>) {
    var multiRoom, n := |sections| >= 2, |sections|;
    seq(n, i requires 0 <= i < n => SummaryPart(sections[i], multiRoom))
    + seq(n, i requires 0 <= i < n => IndexPart(sections[i], multiRoom))
  }

  lemma ConcatSnoc(lines: seq<Bytes>, line: Bytes)
    ensures Concat(lines + [line]) == Concat(lines) + line
  {
    ConcatConcat(lines, [line]);
    assert [line][1..] == [];
  }

  lemma {:induction false} ConcatConcat(a: seq<Bytes>, b: seq<Bytes>)
    ensures Concat(a + b) == Concat(a) + Concat(b)
    decreases |a|
  {
    if a == [] {
      assert a + b == b;
    } else {
      assert (a + b)[1..] == a[1..] + b;
      ConcatConcat(a[1..], b);
    }
  }

  lemma SummariesNext(sections: seq<Section>, multiRoom: bool, k: nat, next: nat)
    requires next == k + 1 <= |sections|
    ensures Summaries(sections[..next], multiRoom) ==
            Summaries(sections[..k], multiRoom) + SummaryPart(sections[k], multiRoom)
    ensures Indexes(sections[..next], multiRoom) ==
            Indexes(sections[..k], multiRoom) + IndexPart(sections[k], multiRoom)
  {
    assert sections[..next][..k] == sections[..k];
  }

  lemma ConcatNext(parts: seq<Bytes>, k: nat, next: nat)
    requires next == k + 1 <= |parts|
    ensures Concat(parts[..next]) == Concat(parts[..k]) + parts[k]
  {
    assert parts[..next] == parts[..k] + [parts[k]];
    ConcatSnoc(parts[..k], parts[k]);
  }

  /** The first `k` parts of either kind. */
  lemma {:induction false} PartsSoFar(sections: seq<Section>, multiRoom: bool, k: nat, sums: seq<Bytes>,
                                      indexes: seq<Bytes>)
    requires k <= |sections| == |sums| == |indexes|
    requires forall i :: 0 <= i < |sections| ==> sums[i] == SummaryPart(sections[i], multiRoom)
    requires forall i :: 0 <= i < |sections| ==> indexes[i] == IndexPart(sections[i], multiRoom)
    ensures Summaries(sections[..k], multiRoom) == Concat(sums[..k])
    ensures Indexes(sections[..k], multiRoom) == Concat(indexes[..k])
    decreases k
  {
    if k > 0 {
      var m := k - 1;
      PartsSoFar(sections, multiRoom, m, sums, indexes);
      SummariesNext(sections, multiRoom, m, k);
      ConcatNext(sums, m, k);
      ConcatNext(indexes, m, k);
    }
  }

  /** Every summary comes before every file index, and each kind in the order of the sections. */
  lemma SummariesFirst(sections: seq<Section>)
    ensures PreambleOf(sections) == Concat(Parts(sections))
  {
    var n, parts := |sections|, Parts(sections);
    PartsSoFar(sections, n >= 2, n, parts[..n], parts[n..]);
    assert sections[..n] == sections && parts[..n][..n] == parts[..n] && parts[n..][..n] == parts[n..];
    ConcatConcat(parts[..n], parts[n..]);
    assert parts[..n] + parts[n..] == parts;
  }

  lemma AsciiConcat(a: string, b: string)
    requires IsAscii(a) && IsAscii(b)
    ensures IsAscii(a + b) && Ascii(a) + Ascii(b) == Ascii(a + b)
  {
  }

  lemma PartIs(header: string, tag: string, body: Bytes)
    requires IsAscii(header) && IsAscii(tag)
    ensures Part(Ascii(header), Ascii(tag), body) == Ascii(header + tag + "]\n") + body + [10, 10]
  {
    assert Ascii("\n\n") == [10, 10];
    AsciiConcat(header, tag);
    AsciiConcat(header + tag, "]\n");
  }

  /** Before a summary or an index of the only room stands what it is, after it an empty line. */
  lemma OnlyPartText(s: Section)
    ensures s.summary != [] ==>
      SummaryPart(s, false) == Ascii("[cc-connect summary]\n") + Head(s.summary, 1536) + [10, 10]
    ensures s.index != [] ==>
      IndexPart(s, false) == Ascii("[cc-connect files]\n") + Tail(s.index, 1536) + [10, 10]
  {
    assert Ascii("") == [] && "[cc-connect summary" + "" + "]\n" == "[cc-connect summary]\n";
    assert "[cc-connect files" + "" + "]\n" == "[cc-connect files]\n";
    PartIs("[cc-connect summary", "", Head(s.summary, 1536));
    PartIs("[cc-connect files", "", Tail(s.index, 1536));
  }

  /** Among several rooms also the first six characters of its topic, in lower case. */
  function ShortTopic(topic: string): (t: string)
    requires IsAscii(topic)
    ensures IsAscii(t)
  {
    LowerAscii(if |topic| <= 6 then topic else topic[..6])
  }

  lemma {:induction false} EncodeAscii(t: string)
    requires IsAscii(t)
    ensures Utf8.Encode(t) == Ascii(t)
    decreases |t|
  {
    if t != "" {
      EncodeAscii(t[1..]);
      assert t == [t[0]] + t[1..];
      AsciiConcat([t[0]], t[1..]);
    }
  }

  lemma TagText(topic: string)
    requires IsAscii(topic)
    ensures Tag(topic, true) == Ascii(" " + ShortTopic(topic))
  {
    EncodeAscii(ShortTopic(topic));
    AsciiConcat(" ", ShortTopic(topic));
  }

  lemma PartTexts(s: Section, tag: string)
    requires IsAscii(s.topic) && tag == " " + ShortTopic(s.topic)
    ensures s.summary != [] ==>
      SummaryPart(s, true) == Ascii("[cc-connect summary" + tag + "]\n") + Head(s.summary, 1536) + [10, 10]
    ensures s.index != [] ==>
      IndexPart(s, true) == Ascii("[cc-connect files" + tag + "]\n") + Tail(s.index, 1536) + [10, 10]
  {
    TagText(s.topic);
    PartIs("[cc-connect summary", tag, Head(s.summary, 1536));
    PartIs("[cc-connect files", tag, Tail(s.index, 1536));
  }

  lemma EncodeEllipsis(before: string, after: string)
    requires IsAscii(before) && IsAscii(after)
    ensures Utf8.Encode(before + "\U{2026}" + after) == Ascii(before) + ELLIPSIS + Ascii(after)
  {
    EncodeAscii(before);
    EncodeAscii(after);
    Utf8.EncodeConcat(before + "\U{2026}", after);
    Utf8.EncodeConcat(before, "\U{2026}");
    assert Utf8.Encode("\U{2026}") == Utf8.EncodeChar('\U{2026}') + Utf8.Encode("");
    assert Utf8.EncodeChar('\U{2026}') == ELLIPSIS;
  }

  lemma AsciiTexts()
    ensures IsAscii("\n") && IsAscii("") && IsAscii("(summary truncated)") && IsAscii("(older entries truncated)\n")
    ensures Ascii("\n") == [NEWLINE] && Ascii("") == []
  {
  }

  /** The markers of what was cut off. */
  lemma SummaryMarkerText(before: string, after: string)
    requires before == "\n" && after == "(summary truncated)"
    ensures SUMMARY_MARKER == Utf8.Encode(before + "\U{2026}" + after)
  {
    AsciiTexts();
    EncodeEllipsis(before, after);
  }

  lemma FilesMarkerText(after: string)
    requires after == "(older entries truncated)\n"
    ensures FILES_MARKER == Utf8.Encode("" + "\U{2026}" + after)
  {
    AsciiTexts();
    EncodeEllipsis("", after);
  }

  predicate IsNumeral(s: string, n: nat) {
    (forall i :: 0 <= i < |s| ==> IsDigit(s[i])) && DecimalValue(s) == n
  }

  /** If lines are dropped, the output is one line that says how many, and then just the others. */
  lemma MarkerCounts(lines: seq<Bytes>, budget: nat, d: nat)
    requires d == Dropped(lines, budget) && 0 < d <= |lines|
    ensures exists n: string ::
      && IsNumeral(n, d) && IsAscii("[chatroom] (" + n + " older messages skipped to fit)\n")
      && Output(lines, d) == Ascii("[chatroom] (" + n + " older messages skipped to fit)\n") + Concat(lines[d..])
  {
    var n := Decimal(d);
    DecimalInverse(d);
    assert IsNumeral(n, d);
    AsciiConcat("[chatroom] (", n);
    AsciiConcat("[chatroom] (" + n, " older messages skipped to fit)\n");
  }

  predicate IsAscii(s: string) {
    forall i :: 0 <= i < |s| ==> s[i] as int < 0x80
  }

  /** The rooms come from a map: no topic twice.  Topics are hexadecimal, so they are ASCII. */
  predicate Rooms(sections: seq<Section>) {
    && (forall i :: 0 <= i < |sections| ==> IsAscii(sections[i].topic))
    && (forall i, j :: 0 <= i < j < |sections| ==> sections[i].topic != sections[j].topic)
  }

  lemma TagLength(topic: string)
    requires IsAscii(topic)
    ensures |Tag(topic, true)| == 1 + if |topic| <= 6 then |topic| else 6
  {
    Utf8.AsciiLength(LowerAscii(if |topic| <= 6 then topic else topic[..6]));
  }

  lemma OneSection(s: Section, multiRoom: bool)
    ensures Summaries([s], multiRoom) == SummaryPart(s, multiRoom) && Indexes([s], multiRoom) == IndexPart(s, multiRoom)
  {
    assert [s][..0] == [];
  }

  lemma TwoSections(s: Section, t: Section)
    ensures |PreambleOf([s, t])| ==
      |SummaryPart(s, true)| + |SummaryPart(t, true)| + |IndexPart(s, true)| + |IndexPart(t, true)|
  {
    assert [s, t][..1] == [s];
    OneSection(s, true);
  }

  /** Text without newlines. */
  function Fill(n: nat): (s: Bytes)
    ensures |s| == n
  {
    seq(n, i => 65)
  }

  /** The longest that a room can be: a full summary, and an index whose last lines just fill the limit. */
  function Widest(topic: string): (s: Section) {
    Section(topic, Fill(SUMMARY_BUDGET), [65] + [NEWLINE] + Fill(FILES_INDEX_BUDGET))
  }

  lemma WidestTail(index: Bytes)
    requires index == [65] + [NEWLINE] + Fill(FILES_INDEX_BUDGET)
    ensures |Tail(index, FILES_INDEX_BUDGET)| == FILES_INDEX_BUDGET + 29
  {
    assert |index| - FILES_INDEX_BUDGET == 2 && index[1] == NEWLINE && index[2] == 65;
    assert LineStart(index, 2) && NextLine(index, 2) == 2;
    assert |FILES_MARKER| == 29;
  }

  lemma WidestParts(topic: string, multiRoom: bool)
    ensures |SummaryPart(Widest(topic), multiRoom)| == 1559 + |Tag(topic, multiRoom)|
    ensures |IndexPart(Widest(topic), multiRoom)| == 1586 + |Tag(topic, multiRoom)|
  {
    WidestTail(Widest(topic).index);
  }

  function TopicNumber(k: nat): (topic: string) {
    "topic-" + Decimal(k)
  }

  lemma TopicNumbersDiffer(j: nat, k: nat)
    requires j != k
    ensures TopicNumber(j) != TopicNumber(k)
  {
    DecimalInverse(j);
    DecimalInverse(k);
    assert TopicNumber(j)[6..] == Decimal(j) && TopicNumber(k)[6..] == Decimal(k);
  }

  function WidestRooms(n: nat): (sections: seq<Section>)
    ensures |sections| == n
  {
    seq(n, k requires 0 <= k < n => Widest(TopicNumber(k)))
  }

  lemma WidestAreRooms(n: nat)
    ensures Rooms(WidestRooms(n))
  {
    var sections := WidestRooms(n);
    forall i, j | 0 <= i < j < n
      ensures sections[i].topic != sections[j].topic
    {
      TopicNumbersDiffer(i, j);
    }
  }

  lemma {:induction false} AtLeast(sections: seq<Section>)
    requires forall i :: 0 <= i < |sections| ==> sections[i] == Widest(sections[i].topic)
    ensures |Summaries(sections, true)| >= 1559 * |sections|
    ensures |Indexes(sections, true)| >= 1586 * |sections|
    decreases |sections|
  {
    if sections != [] {
      AtLeast(sections[..|sections| - 1]);
      WidestParts(sections[|sections| - 1].topic, true);
    }
  }

  lemma ThreeAreTooLong(n: nat)
    requires n >= 3
    ensures |PreambleOf(WidestRooms(n))| > HOOK_OUTPUT_BUDGET
  {
    AtLeast(WidestRooms(n));
  }

  lemma WidestOne(topic: string)
    ensures |PreambleOf([Widest(topic)])| == 3145
  {
    WidestParts(topic, false);
    OneSection(Widest(topic), false);
  }

  lemma WidestTwo(topic: string, other: string)
    requires IsAscii(topic) && IsAscii(other) && |topic| >= 6 && |other| >= 6
    ensures |PreambleOf([Widest(topic), Widest(other)])| == 6318
  {
    WidestParts(topic, true);
    WidestParts(other, true);
    TagLength(topic);
    TagLength(other);
    TwoSections(Widest(topic), Widest(other));
  }

  lemma TwoAreBounded(sections: seq<Section>)
    requires Rooms(sections) && |sections| <= 2
    ensures |PreambleOf(sections)| <= [0, 3145, 6318][|sections|]
  {
    if |sections| == 1 {
      OneSection(sections[0], false);
      assert sections == [sections[0]];
    } else if |sections| == 2 {
      var s, t := sections[0], sections[1];
      assert sections == [s, t];
      TagLength(s.topic);
      TagLength(t.topic);
      TwoSections(s, t);
    }
  }

  /** The longest header beside which `n` rooms always fit. */
  predicate HeaderFits(n: nat, header: nat) {
    n <= 2 && header <= [8192, 5047, 1874][n]
  }

  lemma WidestDoNotFit(n: nat, header: nat)
    requires !HeaderFits(n, header)
    ensures |PreambleOf(WidestRooms(n))| + header > HOOK_OUTPUT_BUDGET
  {
    if n >= 3 {
      ThreeAreTooLong(n);
    } else if n == 2 {
      WidestTwo(TopicNumber(0), TopicNumber(1));
      assert WidestRooms(n) == [Widest(TopicNumber(0)), Widest(TopicNumber(1))];
    } else if n == 1 {
      WidestOne(TopicNumber(0));
      assert WidestRooms(n) == [Widest(TopicNumber(0))];
    }
  }

  predicate FitsBeside(sections: seq<Section>, header: nat) {
    |PreambleOf(sections)| + header <= HOOK_OUTPUT_BUDGET
  }

  /** The preambles of all choices of `n` rooms fit beside a header exactly up to these lengths; with three
      rooms or more, none leaves any room for sure. */
  lemma RoomsFitIff(n: nat, header: nat)
    ensures HeaderFits(n, header) <==>
            forall sections :: |sections| == n && Rooms(sections) ==> FitsBeside(sections, header)
  {
    if HeaderFits(n, header) {
      forall sections | |sections| == n && Rooms(sections)
        ensures FitsBeside(sections, header)
      {
        TwoAreBounded(sections);
      }
    } else {
      WidestAreRooms(n);
      WidestDoNotFit(n, header);
      assert !FitsBeside(WidestRooms(n), header);
    }
  }
}
