/** The mention wait (`MentionState` and the `wait_for_mention` action in `chat_session.rs`) as a step machine:
    one producer pushes in two steps, and one waiter subscribes, scans the ring buffer, then receives.  It
    always calls again with the id it was last given. */
module MentionWait {
  import opened Strings
  import opened Wrappers

  const MENTION_BUFFER_CAP: nat := 32

  datatype Event = Event(id: string, body: string)

  datatype Phase = Idle | Subscribed(next: nat) | Waiting(next: nat)

  /** `events` is everything ever inserted, `got` the positions of the events returned so far. */
  datatype State = State(
    recent: seq<Event>,
    channel: seq<Event>,
    sent: nat,
    phase: Phase,
    since: Option<string>,
    events: seq<Event>,
    got: seq<nat>)

  datatype Action =
    | Insert(ev: Event)     // push: into the ring buffer
    | Broadcast             // push: to the subscribers
    | Subscribe
    | Scan
    | Receive
    | Timeout

  /** Append, dropping the oldest at capacity. */
  function Ring(buffer: seq<Event>, ev: Event): (r: seq<Event>) {
    (if |buffer| >= MENTION_BUFFER_CAP then buffer[1..] else buffer) + [ev]
  }

  /** The oldest entry above the cutoff, by its place in the buffer. */
  function SnapshotAfter(buffer: seq<Event>, cutoff: string): (k: Option<nat>)
    ensures k.Some? ==> k.value < |buffer| && Less(cutoff, buffer[k.value].id)
    ensures k.Some? ==> forall i :: 0 <= i < k.value ==> !Less(cutoff, buffer[i].id)
    ensures k.None? ==> forall i :: 0 <= i < |buffer| ==> !Less(cutoff, buffer[i].id)
    decreases |buffer|
  {
    if buffer == [] then None
    else if Less(cutoff, buffer[0].id) then Some(0)
    else
      var rest := SnapshotAfter(buffer[1..], cutoff);
      if rest.None? then None else Some(rest.value + 1)
  }

  function ScanFor(s: State): (k: Option<nat>) {
    if s.since.None? then None else SnapshotAfter(s.recent, s.since.value)
  }

  /** The position of an entry of a buffer among all events, if the buffer holds the last of `total`. */
  function Position(total: nat, buffer: seq<Event>, k: nat): (p: int) {
    total - |buffer| + k
  }

  predicate Lagged(s: State, next: nat) {
    s.sent - next > |s.channel|
  }

  /** The response carries event `ev`, the `p`-th of all. */
  function Return(s: State, ev: Event, p: nat): (s': State) {
    s.(phase := Idle, since := Some(ev.id), got := s.got + [p])
  }

  predicate Enabled(s: State, a: Action) {
    match a
    case Insert(ev) => s.sent == |s.events| && (s.events != [] ==> Less(s.events[|s.events| - 1].id, ev.id))
    case Broadcast => s.sent < |s.events|
    case Subscribe => s.phase == Idle
    case Scan => s.phase.Subscribed?
    case Receive => s.phase.Waiting? && s.phase.next < s.sent
    case Timeout => s.phase.Waiting?
  }

  function ApplyScan(s: State): (s': State)
    requires s.phase.Subscribed?
  {
    var k := ScanFor(s);
    if k.None? then s.(phase := Waiting(s.phase.next))
    else
      var p := Position(|s.events|, s.recent, k.value);
      if p < 0 then s else Return(s, s.recent[k.value], p)
  }

  function ApplyReceive(s: State): (s': State)
    requires s.phase.Waiting?
  {
    var k := s.phase.next - (s.sent - |s.channel|);
    if Lagged(s, s.phase.next) || k >= |s.channel| then s.(phase := Idle)
    else Return(s, s.channel[k], s.phase.next)
  }

  function Apply(s: State, a: Action): (s': State)
    requires Enabled(s, a)
  {
    match a
    case Insert(ev) => s.(recent := Ring(s.recent, ev), events := s.events + [ev])
    case Broadcast => s.(channel := Ring(s.channel, s.events[s.sent]), sent := s.sent + 1)
    case Subscribe => s.(phase := Subscribed(s.sent))
    case Scan => ApplyScan(s)
    case Receive => ApplyReceive(s)
    case Timeout => s.(phase := Idle)
  }

  predicate Runs(s: State, run: seq<Action>)
    decreases |run|
  {
    run == [] || (Enabled(s, run[0]) && Runs(Apply(s, run[0]), run[1..]))
  }

  function Exec(s: State, run: seq<Action>): (t: State)
    requires Runs(s, run)
    decreases |run|
  {
    if run == [] then s else Exec(Apply(s, run[0]), run[1..])
  }

  function Init(): (s: State) {
    State([], [], 0, Idle, None, [], [])
  }

  // ----- invariant

  /** The last `MENTION_BUFFER_CAP` of `all`. */
  predicate IsTail(buffer: seq<Event>, all: seq<Event>) {
    && |buffer| == (if |all| < MENTION_BUFFER_CAP then |all| else MENTION_BUFFER_CAP)
    && forall k :: 0 <= k < |buffer| ==> buffer[k] == all[|all| - |buffer| + k]
  }

  predicate Ascending(events: seq<Event>) {
    forall i, j :: 0 <= i < j < |events| ==> Less(events[i].id, events[j].id)
  }

  /** The watermark is the event returned last; a subscription starts at it or after it. */
  predicate MarkOk(s: State) {
    if s.got == [] then s.since == None
    else
      var w := s.got[|s.got| - 1];
      && w < |s.events| && s.since == Some(s.events[w].id)
      && (!s.phase.Idle? ==> w <= s.phase.next)
  }

  /** Once the scan has found nothing, the subscription has not missed anything. */
  predicate WaitOk(s: State) {
    && (s.phase.Subscribed? || s.phase.Waiting? ==> s.phase.next <= s.sent)
    && (s.phase.Waiting? && s.got != [] ==> s.phase.next <= s.got[|s.got| - 1] + 1)
  }

  predicate Inv(s: State) {
    && s.sent <= |s.events| <= s.sent + 1 && Ascending(s.events)
    && IsTail(s.recent, s.events) && IsTail(s.channel, s.events[..s.sent])
    && MarkOk(s) && WaitOk(s)
  }

  lemma RingIsTail(buffer: seq<Event>, all: seq<Event>, ev: Event)
    requires IsTail(buffer, all)
    ensures IsTail(Ring(buffer, ev), all + [ev])
  {
    var r, n := Ring(buffer, ev), |all| + 1;
    forall k | 0 <= k < |r|
      ensures r[k] == (all + [ev])[n - |r| + k]
    {
      if k < |r| - 1 {
        var j := k + |buffer| + 1 - |r|;
        assert r[k] == buffer[j] && buffer[j] == all[|all| - |buffer| + j];
      }
    }
  }

  lemma AscendingSnoc(events: seq<Event>, ev: Event)
    requires Ascending(events) && (events != [] ==> Less(events[|events| - 1].id, ev.id))
    ensures Ascending(events + [ev])
  {
    var last := |events| - 1;
    forall i | 0 <= i < last
      ensures Less(events[i].id, ev.id)
    {
      LessTransitive(events[i].id, events[last].id, ev.id);
    }
  }

  lemma InsertKeeps(s: State, ev: Event)
    requires Inv(s) && Enabled(s, Insert(ev))
    ensures Inv(Apply(s, Insert(ev)))
  {
    RingIsTail(s.recent, s.events, ev);
    AscendingSnoc(s.events, ev);
    InsertKeepsRest(s, ev, s.(recent := Ring(s.recent, ev), events := s.events + [ev]));
  }

  lemma InsertKeepsRest(s: State, ev: Event, s': State)
    requires s.sent == |s.events| && IsTail(s.channel, s.events[..s.sent]) && MarkOk(s) && WaitOk(s)
    requires s' == s.(recent := s'.recent, events := s.events + [ev])
    ensures IsTail(s'.channel, s'.events[..s'.sent]) && MarkOk(s') && WaitOk(s')
  {
    assert s'.events[..s'.sent] == s.events[..s.sent];
    if s.got != [] {
      var w := s.got[|s.got| - 1];
      assert s'.events[w] == s.events[w];
    }
  }

  lemma BroadcastKeeps(s: State)
    requires Inv(s) && Enabled(s, Broadcast)
    ensures Inv(Apply(s, Broadcast))
  {
    RingIsTail(s.channel, s.events[..s.sent], s.events[s.sent]);
    SentGrows(s.events, s.sent);
    BroadcastKeepsRest(s, s.(channel := Ring(s.channel, s.events[s.sent]), sent := s.sent + 1));
  }

  lemma BroadcastKeepsRest(s: State, s': State)
    requires Inv(s) && s.sent < |s.events| && s' == s.(channel := s'.channel, sent := s.sent + 1)
    requires IsTail(s'.channel, s.events[..s.sent + 1])
    ensures Inv(s')
  {
    assert s'.events == s.events && s'.recent == s.recent;
    assert MarkOk(s') && WaitOk(s');
  }

  lemma SentGrows(events: seq<Event>, sent: nat)
    requires sent < |events|
    ensures events[..sent] + [events[sent]] == events[..sent + 1]
  {
  }

  lemma TailAt(buffer: seq<Event>, all: seq<Event>, k: nat)
    requires IsTail(buffer, all) && k < |buffer|
    ensures |buffer| <= |all| && buffer[k] == all[|all| - |buffer| + k]
  {
  }

  lemma AboveWatermark(all: seq<Event>, w: nat, i: nat)
    requires Ascending(all) && w < |all| && i < |all|
    ensures Less(all[w].id, all[i].id) <==> i > w
  {
    LessTrichotomy(all[w].id, all[i].id);
  }

  lemma SnapshotFinds(buffer: seq<Event>, all: seq<Event>, w: nat)
    requires IsTail(buffer, all) && Ascending(all) && w < |all|
    ensures var k, n := SnapshotAfter(buffer, all[w].id), |all|;
      && (k.None? <==> n == w + 1)
      && (k.Some? ==>
            var p := Position(n, buffer, k.value);
            && p == (if n - (w + 1) <= MENTION_BUFFER_CAP then w + 1 else n - MENTION_BUFFER_CAP)
            && buffer[k.value] == all[p])
  {
    var base := |all| - |buffer|;
    forall k | 0 <= k < |buffer|
      ensures buffer[k] == all[base + k] && (Less(all[w].id, buffer[k].id) <==> base + k > w)
    {
      TailAt(buffer, all, k);
      AboveWatermark(all, w, base + k);
    }
    SnapshotIs(buffer, all[w].id, if w + 1 >= base then w + 1 - base else 0);
  }

  lemma SnapshotIs(buffer: seq<Event>, cutoff: string, first: nat)
    requires first <= |buffer| && forall k :: 0 <= k < |buffer| ==> (Less(cutoff, buffer[k].id) <==> k >= first)
    ensures SnapshotAfter(buffer, cutoff) == if first < |buffer| then Some(first) else None
  {
    if first < |buffer| {
      assert Less(cutoff, buffer[first].id);
    }
  }

  /** What a scan above the watermark finds: the event after it if that is still buffered, else the oldest. */
  lemma ScanFinds(s: State)
    requires Inv(s) && s.got != []
    ensures var w, n := s.got[|s.got| - 1], |s.events|;
      && (ScanFor(s).None? <==> n == w + 1)
      && (ScanFor(s).Some? ==>
            var p := Position(n, s.recent, ScanFor(s).value);
            && p == (if n - (w + 1) <= MENTION_BUFFER_CAP then w + 1 else n - MENTION_BUFFER_CAP)
            && s.recent[ScanFor(s).value] == s.events[p])
  {
    SnapshotFinds(s.recent, s.events, s.got[|s.got| - 1]);
  }

  lemma ScanKeeps(s: State)
    requires Inv(s) && s.phase.Subscribed?
    ensures Inv(Apply(s, Scan))
  {
    if s.got != [] {
      ScanFinds(s);
    }
  }

  lemma ReceiveFinds(s: State)
    requires Inv(s) && Enabled(s, Receive) && !Lagged(s, s.phase.next)
    ensures Apply(s, Receive) == Return(s, s.events[s.phase.next], s.phase.next)
  {
    TailAt(s.channel, s.events[..s.sent], s.phase.next - (s.sent - |s.channel|));
  }

  lemma ReceiveKeeps(s: State)
    requires Inv(s) && Enabled(s, Receive)
    ensures Inv(Apply(s, Receive))
  {
    if !Lagged(s, s.phase.next) {
      ReceiveFinds(s);
    }
  }

  lemma InvStep(s: State, a: Action)
    requires Inv(s) && Enabled(s, a)
    ensures Inv(Apply(s, a))
  {
    match a {
      case Insert(ev) => InsertKeeps(s, ev);
      case Broadcast => BroadcastKeeps(s);
      case Scan => ScanKeeps(s);
      case Receive => ReceiveKeeps(s);
      case _ =>
    }
  }

  lemma {:induction false} InvRun(s: State, run: seq<Action>)
    requires Inv(s) && Runs(s, run)
    ensures Inv(Exec(s, run))
    decreases |run|
  {
    if run != [] {
      InvStep(s, run[0]);
      InvRun(Apply(s, run[0]), run[1..]);
    }
  }

  // ----- what the waiter is given

  /** Neighbours in what was returned: the same event again, or the one after it. */
  predicate Gapless(got: seq<nat>) {
    forall i :: 0 <= i < |got| - 1 ==> got[i] <= got[i + 1] <= got[i] + 1
  }

  /** A scan that finds more unseen events than the buffer holds. */
  predicate Overrun(s: State, a: Action) {
    a.Scan? && s.got != [] && |s.events| - (s.got[|s.got| - 1] + 1) > MENTION_BUFFER_CAP
  }

  predicate NeverOverrun(s: State, run: seq<Action>)
    requires Runs(s, run)
    decreases |run|
  {
    run == [] || (!Overrun(s, run[0]) && NeverOverrun(Apply(s, run[0]), run[1..]))
  }

  /** One step returns at most one event: never one before the watermark, and one beyond its successor only
      in an overrun.  Only a subscription that was there before the watermark's broadcast sees it again. */
  lemma StepReturns(s: State, a: Action)
    requires Inv(s) && Enabled(s, a) && Apply(s, a).got != s.got
    ensures var got := Apply(s, a).got;
      && |got| == |s.got| + 1 && got[..|s.got|] == s.got && got[|s.got|] < |s.events|
      && Apply(s, a).since == Some(s.events[got[|s.got|]].id)
      && (s.got != [] ==>
            var w := s.got[|s.got| - 1];
            && w <= got[|s.got|] && (got[|s.got|] == w ==> a.Receive? && s.phase.next == w)
            && (got[|s.got|] <= w + 1 <==> !Overrun(s, a)))
  {
    if a.Scan? {
      if s.got != [] {
        ScanFinds(s);
      }
    } else {
      assert a.Receive?;
      if !Lagged(s, s.phase.next) {
        ReceiveFinds(s);
      }
    }
  }

  /** An overrun always skips: the scan finds something, and that is not the next event. */
  lemma OverrunReturns(s: State, a: Action)
    requires Inv(s) && Enabled(s, a) && Overrun(s, a)
    ensures Apply(s, a).got != s.got
  {
    ScanFinds(s);
  }

  lemma GaplessSnoc(got: seq<nat>, p: nat)
    ensures Gapless(got + [p]) <==> Gapless(got) && (got != [] ==> got[|got| - 1] <= p <= got[|got| - 1] + 1)
  {
    var more := got + [p];
    assert forall i :: 0 <= i < |got| ==> more[i] == got[i];
    if Gapless(more) {
      assert forall i :: 0 <= i < |got| - 1 ==> more[i] <= more[i + 1] <= more[i] + 1;
      if got != [] {
        assert more[|got| - 1] <= more[|got| - 1 + 1] <= more[|got| - 1] + 1;
      }
    }
  }

  lemma StepGapless(s: State, a: Action)
    requires Inv(s) && Enabled(s, a)
    ensures Gapless(Apply(s, a).got) <==> Gapless(s.got) && !Overrun(s, a)
  {
    var got := Apply(s, a).got;
    if Overrun(s, a) {
      OverrunReturns(s, a);
    }
    if got != s.got {
      StepReturns(s, a);
      LastApart(s.got, got);
      GaplessSnoc(s.got, got[|s.got|]);
    }
  }

  lemma LastApart(got: seq<nat>, more: seq<nat>)
    requires |more| == |got| + 1 && more[..|got|] == got
    ensures more == got + [more[|got|]]
  {
  }

  lemma {:induction false} GaplessFrom(s: State, run: seq<Action>)
    requires Inv(s) && Runs(s, run)
    ensures Gapless(Exec(s, run).got) <==> Gapless(s.got) && NeverOverrun(s, run)
    decreases |run|
  {
    if run != [] {
      StepGapless(s, run[0]);
      InvStep(s, run[0]);
      GaplessFrom(Apply(s, run[0]), run[1..]);
    }
  }

  /** However pushes, scans, lags and timeouts interleave, a re-arming waiter skips no mention exactly if no
      scan ever finds more than 32 that it has not seen. */
  lemma NothingSkippedIff(run: seq<Action>)
    requires Runs(Init(), run)
    ensures Gapless(Exec(Init(), run).got) <==> NeverOverrun(Init(), run)
  {
    GaplessFrom(Init(), run);
  }

  // ----- the object

  lemma {:induction false} ExecSnoc(s: State, run: seq<Action>, a: Action)
    requires Runs(s, run) && Enabled(Exec(s, run), a)
    ensures Runs(s, run + [a]) && Exec(s, run + [a]) == Apply(Exec(s, run), a)
    decreases |run|
  {
    if run == [] {
      assert [a][1..] == [];
    } else {
      assert (run + [a])[0] == run[0] && (run + [a])[1..] == run[1..] + [a];
      ExecSnoc(Apply(s, run[0]), run[1..], a);
    }
  }

  ghost predicate Reached(past: seq<Action>, s: State) {
    Runs(Init(), past) && s == Exec(Init(), past)
  }

  datatype Response = Mention(ev: Event) | LaggedBehind(skipped: nat) | TimedOut

  /** Others push: each step is taken if it can be. */
  function Played(s: State, steps: seq<Action>): (t: State)
    decreases |steps|
  {
    if steps == [] then s
    else
      var n := |steps| - 1;
      var t := Played(s, steps[..n]);
      if (steps[n].Insert? || steps[n].Broadcast?) && Enabled(t, steps[n]) then Apply(t, steps[n]) else t
  }

  lemma PlayedNext(s: State, steps: seq<Action>, i: nat, t: State)
    requires i < |steps| && t == Played(s, steps[..i])
    ensures Played(s, steps[..i + 1]) ==
            if (steps[i].Insert? || steps[i].Broadcast?) && Enabled(t, steps[i]) then Apply(t, steps[i]) else t
  {
    assert steps[..i + 1][..i] == steps[..i];
  }

  /** Event `i` is one of the last 32 and above the caller's id. */
  predicate Unseen(s: State, i: nat) {
    s.since.Some? && i < |s.events| <= i + 32 && Less(s.since.value, s.events[i].id)
  }

  /** It is the oldest such event. */
  predicate Replayed(s: State, i: nat) {
    Unseen(s, i) && forall j: nat :: j < i ==> !Unseen(s, j)
  }

  /** What a call answers: the oldest unseen event of the 32 buffered at its scan; or else, of what was broadcast
      since it subscribed to the `next`-th, the first if that is still among the last 32, and the number that fell
      out if it is not; and that it timed out only if nothing was. */
  ghost predicate Responds(r: Response, scanned: State, woken: State, next: nat, s': State) {
    if exists i: nat :: Replayed(scanned, i) then Hit(r, scanned, s') else Woke(r, woken, next, s')
  }

  ghost predicate Hit(r: Response, s: State, s': State) {
    exists i: nat :: Replayed(s, i) && r == Mention(s.events[i]) && s' == Return(s, r.ev, i)
  }

  predicate Woke(r: Response, s: State, next: nat, s': State) {
    var n := s.sent - next;
    && (n > 32 ==> r == LaggedBehind(n - 32) && s' == s.(phase := Idle))
    && (0 < n <= 32 ==> next < |s.events| && r == Mention(s.events[next]) && s' == Return(s, r.ev, next))
    && (n <= 0 ==> r == TimedOut && s' == s.(phase := Idle))
  }

  lemma UnseenIsFound(s: State, i: nat)
    requires Inv(s) && Unseen(s, i)
    ensures ScanFor(s).Some?
  {
    TailAt(s.recent, s.events, i - (|s.events| - |s.recent|));
  }

  /** The scan finds the oldest unseen event, if there is one. */
  lemma ScanReplays(s: State)
    requires Inv(s)
    ensures var k := ScanFor(s);
      if k.None? then forall i: nat :: !Replayed(s, i)
      else
        var p := Position(|s.events|, s.recent, k.value);
        0 <= p < |s.events| && s.recent[k.value] == s.events[p] && Replayed(s, p)
  {
    var base := |s.events| - |s.recent|;
    forall k | 0 <= k < |s.recent|
      ensures s.recent[k] == s.events[base + k]
    {
      TailAt(s.recent, s.events, k);
    }
    forall i: nat | Unseen(s, i)
      ensures ScanFor(s).Some?
    {
      UnseenIsFound(s, i);
    }
    if ScanFor(s).Some? {
      var p := Position(|s.events|, s.recent, ScanFor(s).value);
      forall j: nat | j < p
        ensures !Unseen(s, j)
      {
        if j >= base {
          assert s.recent[j - base] == s.events[base + (j - base)];
        }
      }
    }
  }

  /** The response in terms of everything pushed so far and the watermark `w`. */
  predicate Answers(r: Response, s: State, s': State) {
    match r
    case Mention(ev) =>
      && |s'.got| == |s.got| + 1 && s'.got[..|s.got|] == s.got
      && s'.got[|s.got|] < |s'.events| && ev == s'.events[s'.got[|s.got|]]
    case _ => s'.got == s.got
  }

  lemma ReceiveAnswers(s: State)
    requires Inv(s) && Enabled(s, Receive)
    ensures var k, s' := s.phase.next - (s.sent - |s.channel|), Apply(s, Receive);
      && s'.phase.Idle?
      && if Lagged(s, s.phase.next) then Answers(LaggedBehind(0), s, s')
         else k < |s.channel| && Answers(Mention(s.channel[k]), s, s')
  {
    if !Lagged(s, s.phase.next) {
      ReceiveFinds(s);
      TailAt(s.channel, s.events[..s.sent], s.phase.next - (s.sent - |s.channel|));
    }
  }

  /** What a receiver finds that is behind by more than 32, or by less. */
  lemma ReceiveResponds(s: State)
    requires Inv(s) && Enabled(s, Receive)
    ensures var n, s' := s.sent - s.phase.next, Apply(s, Receive);
      if n > 32 then Lagged(s, s.phase.next) && n - |s.channel| == n - 32 && s' == s.(phase := Idle)
      else
        && !Lagged(s, s.phase.next) && s.channel[s.phase.next - (s.sent - |s.channel|)] == s.events[s.phase.next]
        && s' == Return(s, s.events[s.phase.next], s.phase.next)
  {
    if !Lagged(s, s.phase.next) {
      ReceiveFinds(s);
      TailAt(s.channel, s.events[..s.sent], s.phase.next - (s.sent - |s.channel|));
    }
  }

  class MentionState {
    var s: State
    ghost var past: seq<Action>

    ghost predicate Valid()
      reads this
    {
      Reached(past, s)
    }

    constructor ()
      ensures Valid() && s == Init()
    {
      s, past := Init(), [];
    }

    method Do(a: Action)
      requires Valid() && Enabled(s, a)
      modifies this
      ensures Valid() && past == old(past) + [a] && s == Apply(old(s), a)
    {
      ExecSnoc(Init(), past, a);
      s := Apply(s, a);
      past := past + [a];
    }

    /** `push`, when no other push is half-way. */
    method Push(ev: Event)
      requires Valid() && Enabled(s, Insert(ev))
      modifies this
      ensures Valid() && past == old(past) + [Insert(ev)] + [Broadcast]
      ensures s.events == old(s).events + [ev] && s.sent == |s.events|
      ensures s.recent == Ring(old(s).recent, ev) && s.channel == Ring(old(s).channel, ev)
      ensures s.phase == old(s).phase && s.since == old(s).since && s.got == old(s).got
    {
      Do(Insert(ev));
      Do(Broadcast);
    }

    /** `snapshot_after`: the loop over the buffer. */
    method FindAfter(cutoff: Option<string>) returns (found: Option<Event>)
      ensures found.None? <==> cutoff.None? || SnapshotAfter(s.recent, cutoff.value).None?
      ensures found.Some? ==> found.value == s.recent[SnapshotAfter(s.recent, cutoff.value).value]
    {
      if cutoff.None? {
        return None;
      }
      var k := 0;
      while k < |s.recent|
        invariant 0 <= k <= |s.recent|
        invariant forall i :: 0 <= i < k ==> !Less(cutoff.value, s.recent[i].id)
      {
        if Less(cutoff.value, s.recent[k].id) {
          return Some(s.recent[k]);
        }
        k := k + 1;
      }
      found := None;
    }

    /** Others push; each step is taken if it can be. */
    method Others(steps: seq<Action>)
      requires Valid()
      modifies this
      ensures Valid() && old(past) <= past && s == Played(old(s), steps)
      ensures s.phase == old(s).phase && s.since == old(s).since && s.got == old(s).got
    {
      var i := 0;
      while i < |steps|
        invariant 0 <= i <= |steps|
        invariant Valid() && old(past) <= past && s == Played(old(s), steps[..i])
        invariant s.phase == old(s).phase && s.since == old(s).since && s.got == old(s).got
      {
        PlayedNext(old(s), steps, i, s);
        if (steps[i].Insert? || steps[i].Broadcast?) && Enabled(s, steps[i]) {
          Do(steps[i]);
        }
        i := i + 1;
      }
      assert steps[..|steps|] == steps;
    }

    /** Scan the buffer; if nothing is found, the waiter goes on to receive. */
    method ScanOnce() returns (found: Option<Event>)
      requires Valid() && s.phase.Subscribed?
      modifies this
      ensures Valid() && old(past) <= past
      ensures found.Some? ==> s.phase.Idle? && Answers(Mention(found.value), old(s), s)
      ensures found.Some? ==> Hit(Mention(found.value), old(s), s)
      ensures found.None? ==> s == old(s).(phase := Waiting(old(s).phase.next))
      ensures found.Some? <==> exists i: nat :: Replayed(old(s), i)
    {
      InvRun(Init(), past);
      ScanReplays(s);
      found := FindAfter(s.since);
      if found.Some? {
        ScanIsLocated(s);
        StepReturns(s, Scan);
        ScanFinds(s);
      }
      Do(Scan);
    }

    /** Wake with an event, or with the news of having lagged, or not at all. */
    method ReceiveOnce() returns (r: Response)
      requires Valid() && s.phase.Waiting?
      modifies this
      ensures Valid() && old(past) <= past && s.phase.Idle? && Answers(r, old(s), s)
      ensures Woke(r, old(s), old(s).phase.next, s)
    {
      if s.sent <= s.phase.next {
        Do(Timeout);
        return TimedOut;
      }
      InvRun(Init(), past);
      ReceiveAnswers(s);
      ReceiveResponds(s);
      r := if Lagged(s, s.phase.next) then LaggedBehind(s.sent - |s.channel| - s.phase.next)
           else Mention(s.channel[s.phase.next - (s.sent - |s.channel|)]);
      Do(Receive);
    }

    /** The `wait_for_mention` action.  `meanwhile` and `later` are the pushes between subscription and scan,
        and between the scan and the moment the waiter wakes or gives up. */
    method WaitForMention(meanwhile: seq<Action>, later: seq<Action>) returns (r: Response)
      requires Valid() && s.phase.Idle?
      modifies this
      ensures Valid() && old(past) <= past && s.phase.Idle? && Answers(r, old(s), s)
      ensures var scanned := Played(Apply(old(s), Subscribe), meanwhile);
        var woken := Played(scanned.(phase := Waiting(old(s).sent)), later);
        Responds(r, scanned, woken, old(s).sent, s)
    {
      Do(Subscribe);
      Others(meanwhile);
      var found := ScanOnce();
      if found.Some? {
        return Mention(found.value);
      }
      Others(later);
      r := ReceiveOnce();
    }
  }

  lemma ScanIsLocated(s: State)
    requires Inv(s) && s.phase.Subscribed? && ScanFor(s).Some?
    ensures Apply(s, Scan).got != s.got && Apply(s, Scan).since == Some(s.recent[ScanFor(s).value].id)
    ensures Apply(s, Scan).phase.Idle?
  {
  }
}
