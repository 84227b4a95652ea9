/** Tailing a growing log file (`tailJsonl` in the chat UI's `log_tail.ts`): watch callbacks, and reads that may
    fail or fall short, among appends by others. */
module LogTail {
  import opened Wrappers
  import Sequences
  import Utf8

  type byte = Utf8.byte

  /** How far `readMore` is: between its calls of `open` and `read` it is pending, for the size it saw. */
  datatype Phase = Quiet | Opening(size: nat) | Reading(size: nat)

  /** `lines` is every complete line taken off the buffer so far, without its newline. */
  datatype State = State(
    file: seq<byte>,
    offset: nat,
    phase: Phase,
    closed: bool,
    buf: string,
    lines: seq<string>)

  datatype Action =
    | Append(bytes: seq<byte>)
    | ReadMore(statOk: bool)
    | Opened(ok: bool)
    | ReadDone(bytesRead: Option<nat>)
    | Close

  /** The complete lines at the front, and what follows the last of them. */
  function Split(s: string): (r: (seq<string>, string))
    decreases |s|
  {
    var n := NewlineAt(s);
    if n == |s| then ([], s)
    else
      var rest := Split(s[n + 1..]);
      ([s[..n]] + rest.0, rest.1)
  }

  function NewlineAt(s: string): (n: nat)
    ensures n <= |s| && (n < |s| ==> s[n] == '\n') && forall i :: 0 <= i < n ==> s[i] != '\n'
    decreases |s|
  {
    if s == "" || s[0] == '\n' then 0 else 1 + NewlineAt(s[1..])
  }

  /** The text that the lines came from. */
  function Joined(lines: seq<string>): (s: string)
    decreases |lines|
  {
    if lines == [] then "" else lines[0] + "\n" + Joined(lines[1..])
  }

  function Chunk(s: State, n: nat): (bytes: seq<byte>)
    requires s.offset + n <= |s.file|
  {
    s.file[s.offset..s.offset + n]
  }

  predicate Enabled(s: State, a: Action) {
    match a
    case Append(_) => true
    case ReadMore(_) => true
    case Opened(_) => s.phase.Opening?
    case ReadDone(n) =>
      && s.phase.Reading?
      // a read gets no more than it asked for
      && (n.Some? ==> s.offset + n.value <= s.phase.size <= |s.file|)
    case Close => true
  }

  /** Does this step take the size of the file? */
  predicate TakesSize(s: State, a: Action) {
    a == ReadMore(true) && !s.closed && s.phase == Quiet
  }

  function ApplyReadMore(s: State, statOk: bool): (s': State) {
    if s.closed || s.phase != Quiet || !statOk then s
    else
      var size := |s.file|;
      var fresh' := if size < s.offset then s.(offset := 0, buf := "") else s;
      if size == fresh'.offset then fresh' else fresh'.(phase := Opening(size))
  }

  /** After reading `n` bytes that hold the text `more`. */
  function Taken(s: State, n: nat, more: string): (s': State) {
    var split := Split(s.buf + more);
    s.(offset := s.offset + n, phase := Quiet, buf := split.1, lines := s.lines + split.0)
  }

  function ApplyRead(s: State, n: nat): (s': State)
    requires s.offset + n <= |s.file|
  {
    Taken(s, n, Utf8.Lossy(Chunk(s, n)))
  }

  function Apply(s: State, a: Action): (s': State)
    requires Enabled(s, a)
  {
    match a
    case Append(bytes) => s.(file := s.file + bytes)
    case ReadMore(statOk) => ApplyReadMore(s, statOk)
    case Opened(ok) => s.(phase := if !ok || s.closed then Quiet else Reading(s.phase.size))
    case ReadDone(n) => if n.None? || s.closed then s.(phase := Quiet) else ApplyRead(s, n.value)
    case Close => s.(closed := true)
  }

  predicate Runs(s: State, run: seq<Action>)
    decreases |run|
  {
    run == [] || (Enabled(s, run[0]) && Runs(Apply(s, run[0]), run[1..]))
  }

  function Exec(s: State, run: seq<Action>): (t: State)
    requires Runs(s, run)
    decreases |run|
  {
    if run == [] then s else Exec(Apply(s, run[0]), run[1..])
  }

  predicate Init(s: State) {
    s.offset == 0 && s.phase == Quiet && !s.closed && s.buf == "" && s.lines == []
  }

  // ----- splitting

  lemma JoinedCons(line: string, lines: seq<string>)
    ensures Joined([line] + lines) == line + "\n" + Joined(lines)
  {
    assert ([line] + lines)[0] == line && ([line] + lines)[1..] == lines;
  }

  lemma NewlineFirst(line: string, rest: string)
    requires '\n' !in line
    ensures NewlineAt(line + "\n" + rest) == |line|
  {
    var s := line + "\n" + rest;
    assert s[|line|] == '\n';
    assert forall i :: 0 <= i < |line| ==> s[i] == line[i];
  }

  lemma SplitStep(line: string, rest: string)
    requires '\n' !in line
    ensures Split(line + "\n" + rest) == ([line] + Split(rest).0, Split(rest).1)
  {
    var s := line + "\n" + rest;
    NewlineFirst(line, rest);
    assert s[..|line|] == line && s[|line| + 1..] == rest;
  }

  lemma JoinedSplit(line: string, lines: seq<string>, tail: string)
    ensures Joined([line] + lines) + tail == line + "\n" + (Joined(lines) + tail)
  {
    JoinedCons(line, lines);
    Sequences.Associate(line + "\n", Joined(lines), tail);
  }

  /** The parts of a split give the text back. */
  predicate Parts(s: string, split: (seq<string>, string)) {
    Joined(split.0) + split.1 == s && '\n' !in split.1 && NoNewlines(split.0)
  }

  lemma PartsCons(line: string, rest: string, split: (seq<string>, string))
    requires '\n' !in line && Parts(rest, split)
    ensures Parts(line + "\n" + rest, ([line] + split.0, split.1))
  {
    JoinedSplit(line, split.0, split.1);
  }

  lemma {:induction false} SplitMeans(s: string)
    ensures Parts(s, Split(s))
    decreases |s|
  {
    var n := NewlineAt(s);
    if n < |s| {
      var line, rest := s[..n], s[n + 1..];
      SplitMeans(rest);
      assert s == line + "\n" + rest;
      SplitStep(line, rest);
      PartsCons(line, rest, Split(rest));
    }
  }

  /** A text can be cut into complete lines and a rest in only one way. */
  lemma {:induction false} SplitIsUnique(lines: seq<string>, rest: string)
    requires '\n' !in rest && NoNewlines(lines)
    ensures Split(Joined(lines) + rest) == (lines, rest)
    decreases |lines|
  {
    if lines == [] {
      assert Joined(lines) + rest == rest;
    } else {
      var line, more := lines[0], lines[1..];
      SplitIsUnique(more, rest);
      assert [line] + more == lines;
      JoinedSplit(line, more, rest);
      SplitStep(line, Joined(more) + rest);
    }
  }

  lemma {:induction false} JoinedConcat(a: seq<string>, b: seq<string>)
    ensures Joined(a + b) == Joined(a) + Joined(b)
    decreases |a|
  {
    if a == [] {
      assert a + b == b;
    } else {
      assert (a + b)[1..] == a[1..] + b;
      JoinedConcat(a[1..], b);
    }
  }

  // ----- invariant

  function Consumed(s: State): (text: string) {
    Joined(s.lines) + s.buf
  }

  predicate NoNewlines(lines: seq<string>) {
    forall i :: 0 <= i < |lines| ==> '\n' !in lines[i]
  }

  /** The lines taken, each with its newline, and the buffer are the first `offset` bytes of the file. */
  predicate Exact(s: State) {
    s.offset <= |s.file| && Utf8.Encode(Consumed(s)) == s.file[..s.offset]
  }

  /** What holds even if text was mangled: nothing taken is shorter than the bytes it stands for. */
  predicate Inv(s: State) {
    && s.offset <= |s.file| && s.offset <= |Utf8.Encode(Consumed(s))|
    && '\n' !in s.buf && NoNewlines(s.lines)
    && (s.phase != Quiet ==> s.offset <= s.phase.size <= |s.file|)
  }

  lemma TextGrows(lines: seq<string>, buf: string, more: string)
    ensures var split := Split(buf + more);
      Joined(lines + split.0) + split.1 == Joined(lines) + buf + more
  {
    var split := Split(buf + more);
    SplitMeans(buf + more);
    JoinedConcat(lines, split.0);
    Regroup(Joined(lines), Joined(split.0), split.1, buf, more);
  }

  lemma SliceGrows(file: seq<byte>, offset: nat, n: nat)
    requires offset + n <= |file|
    ensures file[..offset] + file[offset..offset + n] == file[..offset + n]
  {
  }

  lemma ConcatsAgree(a: seq<byte>, b: seq<byte>, c: seq<byte>, d: seq<byte>)
    requires |a| >= |c| && |b| >= |d|
    ensures a + b == c + d <==> a == c && b == d
  {
    if a + b == c + d {
      assert |a| == |c|;
      assert a == (a + b)[..|a|] == c && b == (a + b)[|a|..] == d;
    }
  }

  /** Text once mangled is never made good: later text cannot be shorter than its bytes either. */
  lemma PrefixGrowsIff(
    file: seq<byte>, offset: nat, n: nat, chunk: seq<byte>, consumed: string, grown: string)
    requires offset + n <= |file| && offset <= |Utf8.Encode(consumed)|
    requires chunk == file[offset..offset + n] && grown == consumed + Utf8.Lossy(chunk)
    ensures offset + n <= |Utf8.Encode(grown)|
    ensures Utf8.Encode(grown) == file[..offset + n] <==>
            Utf8.Encode(consumed) == file[..offset] && Utf8.Decode(chunk).Some?
  {
    Utf8.EncodeConcat(consumed, Utf8.Lossy(chunk));
    Utf8.LossyIsNoShorter(chunk);
    Utf8.LossyKeepsIff(chunk);
    SliceGrows(file, offset, n);
    ConcatsAgree(Utf8.Encode(consumed), Utf8.Encode(Utf8.Lossy(chunk)), file[..offset], chunk);
  }

  lemma TakenKeeps(s: State, n: nat, more: string)
    requires '\n' !in s.buf && NoNewlines(s.lines)
    ensures '\n' !in Taken(s, n, more).buf && NoNewlines(Taken(s, n, more).lines)
    ensures Consumed(Taken(s, n, more)) == Consumed(s) + more
  {
    SplitMeans(s.buf + more);
    TextGrows(s.lines, s.buf, more);
    LinesStayClean(s.lines, Split(s.buf + more).0);
  }

  lemma ConsumedGrows(s: State, n: nat, t: State)
    requires Inv(s) && s.offset + n <= |s.file|
    requires t.file == s.file && t.offset == s.offset + n && t.phase == Quiet
    requires Consumed(t) == Consumed(s) + Utf8.Lossy(Chunk(s, n)) && '\n' !in t.buf && NoNewlines(t.lines)
    ensures Inv(t) && (Exact(t) <==> Exact(s) && Utf8.Decode(Chunk(s, n)).Some?)
  {
    PrefixGrowsIff(s.file, s.offset, n, Chunk(s, n), Consumed(s), Consumed(t));
  }

  lemma ReadKeeps(s: State, n: nat)
    requires Inv(s) && s.offset + n <= |s.file|
    ensures Inv(ApplyRead(s, n))
    ensures Exact(ApplyRead(s, n)) <==> Exact(s) && Utf8.Decode(Chunk(s, n)).Some?
  {
    TakenKeeps(s, n, Utf8.Lossy(Chunk(s, n)));
    ConsumedGrows(s, n, ApplyRead(s, n));
  }

  lemma LinesStayClean(lines: seq<string>, more: seq<string>)
    requires NoNewlines(lines) && NoNewlines(more)
    ensures NoNewlines(lines + more)
  {
  }

  lemma Regroup(a: string, b: string, c: string, buf: string, more: string)
    requires b + c == buf + more
    ensures a + b + c == a + buf + more
  {
    Sequences.Associate(a, b, c);
    Sequences.Associate(a, buf, more);
  }

  /** Does this step take bytes that the reader uses? */
  predicate Takes(s: State, a: Action) {
    a.ReadDone? && a.bytesRead.Some? && !s.closed
  }

  predicate Decodes(s: State, a: Action)
    requires Enabled(s, a)
  {
    Takes(s, a) ==> Utf8.Decode(Chunk(s, a.bytesRead.value)).Some?
  }

  lemma InvStep(s: State, a: Action)
    requires Inv(s) && Enabled(s, a)
    ensures Inv(Apply(s, a)) && s.file <= Apply(s, a).file
    ensures Exact(Apply(s, a)) <==> Exact(s) && Decodes(s, a)
  {
    match a {
      case Append(bytes) => assert (s.file + bytes)[..s.offset] == s.file[..s.offset];
      case ReadDone(n) =>
        if n.Some? && !s.closed {
          ReadKeeps(s, n.value);
        }
      case _ =>
    }
  }

  lemma {:induction false} InvRun(s: State, run: seq<Action>)
    requires Inv(s) && Runs(s, run)
    ensures Inv(Exec(s, run)) && s.file <= Exec(s, run).file
    decreases |run|
  {
    if run != [] {
      InvStep(s, run[0]);
      InvRun(Apply(s, run[0]), run[1..]);
    }
  }

  lemma InitInv(s: State)
    requires Init(s)
    ensures Inv(s) && Exact(s)
  {
    assert s.file[..0] == [];
  }

  // ----- main results: what is taken

  /** Every chunk that the reader took is well-formed by itself. */
  predicate AllDecode(s: State, run: seq<Action>)
    requires Runs(s, run)
    decreases |run|
  {
    run == [] || (Decodes(s, run[0]) && AllDecode(Apply(s, run[0]), run[1..]))
  }

  lemma {:induction false} ExactIff(s: State, run: seq<Action>)
    requires Inv(s) && Runs(s, run)
    ensures Exact(Exec(s, run)) <==> Exact(s) && AllDecode(s, run)
    decreases |run|
  {
    if run != [] {
      InvStep(s, run[0]);
      ExactIff(Apply(s, run[0]), run[1..]);
    }
  }

  /** Over every run on a growing file, what was consumed is cut into lines in the one possible way: every complete
      line once, in order, whole.  It is the file up to the offset exactly if every chunk was well-formed by
      itself; text that was once mangled is never made good. */
  lemma ConsumesThePrefix(s: State, run: seq<Action>)
    requires Init(s) && Runs(s, run)
    ensures var t := Exec(s, run);
      && t.offset <= |t.file| && (t.lines, t.buf) == Split(Consumed(t))
      && (Utf8.Decode(t.file[..t.offset]) == Some(Consumed(t)) <==> AllDecode(s, run))
  {
    InitInv(s);
    InvRun(s, run);
    ExactIff(s, run);
    var t := Exec(s, run);
    SplitIsUnique(t.lines, t.buf);
    Utf8.DecodeEncode(Consumed(t));
    if Utf8.Decode(t.file[..t.offset]) == Some(Consumed(t)) {
      Utf8.EncodeDecode(t.file[..t.offset]);
    }
  }

  /** No read that the reader used ended inside a character of `whole`. */
  predicate EndsOnBoundaries(s: State, run: seq<Action>, whole: seq<byte>)
    requires Runs(s, run)
    decreases |run|
  {
    run == [] ||
    (&& (Takes(s, run[0]) ==> Utf8.IsBoundary(whole, s.offset + run[0].bytesRead.value))
     && EndsOnBoundaries(Apply(s, run[0]), run[1..], whole))
  }

  lemma OffsetAfter(s: State, a: Action)
    requires Inv(s) && Enabled(s, a)
    ensures Apply(s, a).offset == s.offset + if Takes(s, a) then a.bytesRead.value else 0
  {
  }

  lemma ChunkIsSlice(s: State, n: nat, whole: seq<byte>)
    requires s.offset + n <= |s.file| && s.file <= whole
    ensures |Chunk(s, n)| == n && whole[s.offset..] == Chunk(s, n) + whole[s.offset + n..]
  {
  }

  lemma StepOnBoundary(s: State, a: Action, text: string)
    requires Inv(s) && Enabled(s, a) && s.file <= Utf8.Encode(text) && Utf8.IsBoundary(Utf8.Encode(text), s.offset)
    ensures Decodes(s, a) <==>
            (Takes(s, a) ==> Utf8.IsBoundary(Utf8.Encode(text), s.offset + a.bytesRead.value))
    ensures Decodes(s, a) ==> Utf8.IsBoundary(Utf8.Encode(text), Apply(s, a).offset)
  {
    OffsetAfter(s, a);
    if Takes(s, a) {
      var n, whole := a.bytesRead.value, Utf8.Encode(text);
      ChunkIsSlice(s, n, whole);
      Utf8.SliceDecodesIff(text, s.offset, Chunk(s, n), whole[s.offset + n..]);
    }
  }

  lemma {:induction false} DecodesIffOnBoundaries(s: State, run: seq<Action>, text: string)
    requires Inv(s) && Runs(s, run) && Exec(s, run).file == Utf8.Encode(text)
    requires Utf8.IsBoundary(Utf8.Encode(text), s.offset)
    ensures AllDecode(s, run) <==> EndsOnBoundaries(s, run, Utf8.Encode(text))
    decreases |run|
  {
    if run != [] {
      InvRun(s, run);
      InvStep(s, run[0]);
      StepOnBoundary(s, run[0], text);
      if Decodes(s, run[0]) {
        DecodesIffOnBoundaries(Apply(s, run[0]), run[1..], text);
      }
    }
  }

  /** Once the offset has reached the end of a file that holds `text`, just its complete lines were delivered --
      exactly if no read ended inside a character. */
  lemma CaughtUpIff(s: State, run: seq<Action>, text: string)
    requires Init(s) && Runs(s, run)
    requires Exec(s, run).file == Utf8.Encode(text) && Exec(s, run).offset == |Exec(s, run).file|
    ensures (Exec(s, run).lines, Exec(s, run).buf) == Split(text) <==> EndsOnBoundaries(s, run, Utf8.Encode(text))
  {
    var t := Exec(s, run);
    InitInv(s);
    DecodesIffOnBoundaries(s, run, text);
    ConsumesThePrefix(s, run);
    assert t.file[..t.offset] == t.file;
    Utf8.DecodeEncode(text);
    SplitMeans(text);
  }

  // ----- main results: what is left unread

  /** The size of the file that the last effective callback took. */
  function Seen(s: State, run: seq<Action>, seen: nat): (size: nat)
    requires Runs(s, run)
    decreases |run|
  {
    if run == [] then seen
    else Seen(Apply(s, run[0]), run[1..], if TakesSize(s, run[0]) then |s.file| else seen)
  }

  predicate SeenInv(s: State, seen: nat) {
    s.offset <= seen <= |s.file| && (s.phase != Quiet ==> s.phase.size == seen)
  }

  lemma {:induction false} SeenRun(s: State, run: seq<Action>, seen: nat)
    requires Runs(s, run) && SeenInv(s, seen)
    ensures SeenInv(Exec(s, run), Seen(s, run, seen))
    decreases |run|
  {
    if run != [] {
      SeenRun(Apply(s, run[0]), run[1..], if TakesSize(s, run[0]) then |s.file| else seen);
    }
  }

  /** Nothing is left unread exactly if the file has not grown since an effective callback last took its size, and
      the reads got as far as that size. */
  lemma AllReadIff(s: State, run: seq<Action>)
    requires Init(s) && Runs(s, run)
    ensures var t, seen := Exec(s, run), Seen(s, run, 0);
      && t.offset <= seen <= |t.file|
      && (t.offset == |t.file| <==> seen == |t.file| && t.offset == seen)
  {
    SeenRun(s, run, 0);
  }

  /** Nobody appends or closes, no call fails, and reads get all they ask for. */
  predicate Undisturbed(s: State, run: seq<Action>)
    requires Runs(s, run)
    decreases |run|
  {
    run == [] ||
    (&& match run[0] {
          case Append(_) => false
          case ReadMore(statOk) => statOk
          case Opened(ok) => ok
          case ReadDone(n) => n.Some? && s.offset + n.value == s.phase.size
          case Close => false
        }
     && Undisturbed(Apply(s, run[0]), run[1..]))
  }

  /** On the way to the end of the file, or there. */
  predicate Catching(s: State) {
    && !s.closed && s.offset <= |s.file|
    && (if s.phase == Quiet then s.offset == |s.file| else s.phase.size == |s.file|)
  }

  lemma {:induction false} CatchingRun(s: State, run: seq<Action>)
    requires Catching(s) && Runs(s, run) && Undisturbed(s, run)
    ensures Catching(Exec(s, run)) && Exec(s, run).file == s.file
    decreases |run|
  {
    if run != [] {
      CatchingRun(Apply(s, run[0]), run[1..]);
    }
  }

  /** A callback that finds the reader quiet and open, after the last append, leads to the end of the file once
      the read that it starts is over, however many callbacks come besides. */
  lemma QuietWakeupCatchesUp(s: State, before: seq<Action>, run: seq<Action>)
    requires Init(s) && Runs(s, before) && Exec(s, before).phase == Quiet && !Exec(s, before).closed
    requires Runs(Exec(s, before), [ReadMore(true)] + run)
    requires Undisturbed(Exec(s, before), [ReadMore(true)] + run)
    requires Exec(Exec(s, before), [ReadMore(true)] + run).phase == Quiet
    ensures var t := Exec(Exec(s, before), [ReadMore(true)] + run);
      t.file == Exec(s, before).file && t.offset == |t.file|
  {
    var m, steps := Exec(s, before), [ReadMore(true)] + run;
    InitInv(s);
    InvRun(s, before);
    assert steps[0] == ReadMore(true);
    CatchingRun(Apply(m, ReadMore(true)), steps[1..]);
  }

  /** Lines that were delivered stay delivered, in their places. */
  lemma {:induction false} LinesOnlyGrow(s: State, run: seq<Action>)
    requires Runs(s, run)
    ensures s.lines <= Exec(s, run).lines
    decreases |run|
  {
    if run != [] {
      LinesOnlyGrow(Apply(s, run[0]), run[1..]);
    }
  }

  lemma OneMore(s: State, a: Action, s': State, run: seq<Action>, t: State)
    requires Enabled(s, a) && Apply(s, a) == s' && Runs(s', run) && Exec(s', run) == t
    ensures Runs(s, [a] + run) && Exec(s, [a] + run) == t
  {
    assert ([a] + run)[0] == a && ([a] + run)[1..] == run;
  }

  /** A callback that comes while a read is pending is dropped: what was appended before it, but after the size
      was taken, stays unread until some later callback. */
  lemma WakeupCanBeLost(s: State, early: seq<byte>, late: seq<byte>)
    requires Init(s) && s.file == [] && early != [] && late != []
    ensures
      var run := [Append(early)] + ([ReadMore(true)] + ([Append(late)] + ([ReadMore(true)] + ([Opened(true)]
                 + ([ReadDone(Some(|early|))] + [])))));
      Runs(s, run) && Exec(s, run).phase == Quiet && Exec(s, run).offset == |early| < |Exec(s, run).file|
  {
    var n := |early|;
    var s1 := s.(file := early);
    var s2 := s1.(phase := Opening(n));
    var s3 := s2.(file := early + late);
    var s5 := s3.(phase := Reading(n));
    assert s.file + early == early;
    assert Chunk(s5, n) == early;
    var t := ApplyRead(s5, n);
    var r5 := [ReadDone(Some(n))] + [];
    var r4 := [Opened(true)] + r5;
    var r3 := [ReadMore(true)] + r4;
    var r2 := [Append(late)] + r3;
    OneMore(s5, ReadDone(Some(n)), t, [], t);
    OneMore(s3, Opened(true), s5, r5, t);
    OneMore(s3, ReadMore(true), s3, r4, t);
    OneMore(s2, Append(late), s3, r3, t);
    OneMore(s1, ReadMore(true), s2, r2, t);
    OneMore(s, Append(early), s1, [ReadMore(true)] + r2, t);
  }

  // ----- the object

  ghost predicate Reached(start: State, past: seq<Action>, s: State) {
    Init(start) && Runs(start, past) && s == Exec(start, past)
  }

  lemma {:induction false} ExecSnoc(s: State, run: seq<Action>, a: Action)
    requires Runs(s, run) && Enabled(Exec(s, run), a)
    ensures Runs(s, run + [a]) && Exec(s, run + [a]) == Apply(Exec(s, run), a)
    decreases |run|
  {
    if run == [] {
      assert [a][1..] == [];
    } else {
      assert (run + [a])[0] == run[0] && (run + [a])[1..] == run[1..] + [a];
      ExecSnoc(Apply(s, run[0]), run[1..], a);
    }
  }

  /** The lines that the handler is called with: `accept` stands for trimming, skipping blank lines and parsing. */
  function Handled(lines: seq<string>, accept: string -> Option<string>): (out: seq<string>)
    decreases |lines|
  {
    if lines == [] then []
    else
      var n := |lines| - 1;
      Handled(lines[..n], accept) + if accept(lines[n]).Some? then [accept(lines[n]).value] else []
  }

  /** What is to be taken from here on. */
  function ToTake(lines: seq<string>, buf: string): (r: (seq<string>, string)) {
    (lines + Split(buf).0, Split(buf).1)
  }

  lemma SplitFirst(buf: string, n: nat, line: string, rest: string)
    requires n == NewlineAt(buf) < |buf| && line == buf[..n] && rest == buf[n + 1..]
    ensures Split(buf).0 == [line] + Split(rest).0 && Split(buf).1 == Split(rest).1
  {
    assert buf == line + "\n" + rest;
    SplitStep(line, rest);
  }

  lemma TakeOne(lines: seq<string>, buf: string, n: nat)
    requires n == NewlineAt(buf) < |buf|
    ensures ToTake(lines, buf) == ToTake(lines + [buf[..n]], buf[n + 1..])
  {
    SplitFirst(buf, n, buf[..n], buf[n + 1..]);
    Sequences.Associate(lines, [buf[..n]], Split(buf[n + 1..]).0);
  }

  lemma HandledSnoc(lines: seq<string>, line: string, accept: string -> Option<string>)
    ensures Handled(lines + [line], accept) ==
            Handled(lines, accept) + if accept(line).Some? then [accept(line).value] else []
  {
    assert (lines + [line])[..|lines|] == lines;
  }

  /** The variables that the callbacks share.  `file` stands for the file itself, which only the calls of
      `stat` and `read` look at, and `handled` for the calls of the handler. */
  class Tail {
    const accept: string -> Option<string>
    var file: seq<byte>
    var offset: nat
    var phase: Phase
    var closed: bool
    var buf: string
    var handled: seq<string>
    ghost var lines: seq<string>
    ghost var start: State
    ghost var past: seq<Action>

    ghost function Now(): (s: State)
      reads this
    {
      State(file, offset, phase, closed, buf, lines)
    }

    ghost predicate Valid()
      reads this
    {
      Reached(start, past, Now()) && handled == Handled(lines, accept)
    }

    constructor (accept: string -> Option<string>, file: seq<byte>)
      ensures Valid() && this.file == file && handled == []
    {
      this.accept, this.file, offset, phase, closed, buf, handled := accept, file, 0, Quiet, false, "", [];
      lines, past := [], [];
      start := State(file, 0, Quiet, false, "", []);
    }

    ghost method Note(before: State, a: Action)
      requires Reached(start, past, before) && Enabled(before, a) && Now() == Apply(before, a)
      modifies `past
      ensures Reached(start, past, Now()) && past == old(past) + [a]
    {
      ExecSnoc(start, past, a);
      past := past + [a];
    }

    method GrowFile(bytes: seq<byte>)
      requires Valid()
      modifies this
      ensures Valid() && Now() == Apply(old(Now()), Append(bytes))
    {
      ghost var before := Now();
      file := file + bytes;
      Note(before, Append(bytes));
    }

    /** Called on every change; while a read is pending, or after closing, it does nothing. */
    method OnChange(statOk: bool)
      requires Valid()
      modifies this
      ensures Valid() && Now() == Apply(old(Now()), ReadMore(statOk))
    {
      ghost var before := Now();
      if !closed && phase == Quiet && statOk {
        var size := |file|;
        if size < offset {
          offset := 0;
          buf := "";
        }
        if size != offset {
          phase := Opening(size);
        }
      }
      Note(before, ReadMore(statOk));
    }

    method OnOpen(ok: bool)
      requires Valid() && phase.Opening?
      modifies this
      ensures Valid() && Now() == Apply(old(Now()), Opened(ok))
    {
      ghost var before := Now();
      phase := if !ok || closed then Quiet else Reading(phase.size);
      Note(before, Opened(ok));
    }

    /** Take the line that ends at `nl` off the buffer and hand it on. */
    method TakeLine(nl: nat)
      requires nl == NewlineAt(buf) < |buf| && handled == Handled(lines, accept)
      modifies `buf, `lines, `handled
      ensures buf == old(buf)[nl + 1..] && lines == old(lines) + [old(buf)[..nl]]
      ensures handled == Handled(lines, accept)
    {
      var line := buf[..nl];
      HandledSnoc(lines, line, accept);
      buf := buf[nl + 1..];
      lines := lines + [line];
      if accept(line).Some? {
        handled := handled + [accept(line).value];
      }
    }

    /** Take the complete lines off the buffer, one by one. */
    method TakeLines()
      requires handled == Handled(lines, accept)
      modifies `buf, `lines, `handled
      ensures buf == Split(old(buf)).1 && lines == old(lines) + Split(old(buf)).0
      ensures handled == Handled(lines, accept)
    {
      var nl := NewlineAt(buf);
      while nl < |buf|
        invariant nl == NewlineAt(buf) && handled == Handled(lines, accept)
        invariant ToTake(lines, buf) == ToTake(old(lines), old(buf))
        decreases |buf|
      {
        TakeOne(lines, buf, nl);
        TakeLine(nl);
        nl := NewlineAt(buf);
      }
    }

    method TakeText(n: nat, more: string)
      requires handled == Handled(lines, accept)
      modifies `offset, `phase, `buf, `lines, `handled
      ensures Now() == Taken(old(Now()), n, more) && handled == Handled(lines, accept)
    {
      phase := Quiet;
      offset := offset + n;
      buf := buf + more;
      TakeLines();
    }

    /** Take `n` bytes that were read. */
    method TakeChunk(n: nat)
      requires handled == Handled(lines, accept) && offset + n <= |file|
      modifies `offset, `phase, `buf, `lines, `handled
      ensures Now() == ApplyRead(old(Now()), n) && handled == Handled(lines, accept)
    {
      ghost var before := Now();
      var chunk := file[offset..offset + n];
      assert chunk == Chunk(before, n);
      TakeText(n, Utf8.Lossy(chunk));
    }

    method OnRead(bytesRead: Option<nat>)
      requires Valid() && Enabled(Now(), ReadDone(bytesRead))
      modifies this
      ensures Valid() && Now() == Apply(old(Now()), ReadDone(bytesRead))
    {
      ghost var before := Now();
      if bytesRead.None? || closed {
        phase := Quiet;
      } else {
        TakeChunk(bytesRead.value);
      }
      Note(before, ReadDone(bytesRead));
    }

    method CloseTail()
      requires Valid()
      modifies this
      ensures Valid() && Now() == Apply(old(Now()), Close)
    {
      ghost var before := Now();
      closed := true;
      Note(before, Close);
    }
  }
}
