/** Sequential fires of one session's hook (`cc-connect-hook/src/main.rs`) among appends by others, as a
    step machine: a fire reads rooms, writes once to standard output, then advances cursors.  It may stop
    at any point, and every read of a cursor and every advance may fail. */
module HookProtocol {
  import opened Message
  import opened Wrappers
  import ChatLog
  import Strings

  type Topic = string

  /** What a fire read from a room: the log up to a length, above the cursor of that moment. */
  datatype Batch = Batch(upTo: nat, above: Option<string>)

  /** `handed[i]` counts the fires that wrote their output after `log[i]` was handed to the renderer, and
      `covered` is the length of the log at the read that the cursor comes from. */
  datatype Room = Room(
    log: seq<Message>,
    cursor: Option<string>,
    batch: Option<Batch>,
    handed: seq<nat>,
    covered: nat)

  datatype Phase = Idle | Reading | Advancing

  datatype State = State(rooms: map<Topic, Room>, phase: Phase)

  datatype Action =
    | Append(t: Topic, m: Message)
    | Begin
    | ReadRoom(t: Topic, cursorOk: bool)   // a cursor that cannot be read counts as none
    | Deliver          // the output was written, or was empty
    | Advance(t: Topic)
    | End              // the fire is over, whatever it left undone

  /** Entry `i` of `log` is above the cursor. */
  predicate Above(log: seq<Message>, i: nat, cursor: Option<string>)
    requires i < |log|
  {
    ChatLog.Passes(log[i], cursor)
  }

  /** Where the last message above the cursor is. */
  function Last(log: seq<Message>, cursor: Option<string>): (p: Option<nat>)
    ensures p.Some? ==> p.value < |log| && Above(log, p.value, cursor)
    ensures p.Some? ==> forall i :: p.value < i < |log| ==> !Above(log, i, cursor)
    ensures p.None? ==> forall i :: 0 <= i < |log| ==> !Above(log, i, cursor)
    decreases |log|
  {
    if log == [] then None
    else if ChatLog.Passes(log[|log| - 1], cursor) then Some(|log| - 1)
    else
      var p := Last(log[..|log| - 1], cursor);
      assert forall i :: 0 <= i < |log| - 1 ==> Above(log[..|log| - 1], i, cursor) == Above(log, i, cursor);
      p
  }

  predicate InBatch(r: Room, i: nat) {
    r.batch.Some? && i < r.batch.value.upTo && i < |r.log| && Above(r.log, i, r.batch.value.above)
  }

  /** What the cursor moves to: the id of the last message of the batch. */
  function Highest(r: Room): (p: Option<nat>)
    ensures p.Some? ==> p.value < |r.log|
  {
    if r.batch.None? || r.batch.value.upTo > |r.log| then None
    else Last(r.log[..r.batch.value.upTo], r.batch.value.above)
  }

  function HandOver(r: Room): (handed: seq<nat>)
    requires |r.handed| == |r.log|
  {
    seq(|r.log|, i requires 0 <= i < |r.log| => r.handed[i] + if InBatch(r, i) then 1 else 0)
  }

  /** What an action does to room `t`. */
  function StepRoom(r: Room, t: Topic, a: Action): (r': Room) {
    match a
    case Append(u, m) => if u == t then r.(log := r.log + [m], handed := r.handed + [0]) else r
    case Begin => r.(batch := None)
    case ReadRoom(u, cursorOk) =>
      if u == t then r.(batch := Some(Batch(|r.log|, if cursorOk then r.cursor else None))) else r
    case Deliver => if |r.handed| == |r.log| then r.(handed := HandOver(r)) else r
    case Advance(u) =>
      if u == t && Highest(r).Some?
      then r.(cursor := Some(r.log[Highest(r).value].id), covered := r.batch.value.upTo, batch := None)
      else r
    case End => r.(batch := None)
  }

  function NextPhase(phase: Phase, a: Action): (p: Phase) {
    match a
    case Begin => Reading
    case Deliver => Advancing
    case End => Idle
    case _ => phase
  }

  function Apply(s: State, a: Action): (s': State) {
    State(map t | t in s.rooms :: StepRoom(s.rooms[t], t, a), NextPhase(s.phase, a))
  }

  predicate Enabled(s: State, a: Action) {
    match a
    case Append(t, m) => t in s.rooms && WellFormed(m)
    case Begin => s.phase == Idle
    case ReadRoom(t, _) => t in s.rooms && s.phase == Reading && s.rooms[t].batch == None
    case Deliver => s.phase == Reading
    case Advance(t) => t in s.rooms && s.phase == Advancing && Highest(s.rooms[t]).Some?
    case End => s.phase != Idle
  }

  predicate Runs(s: State, run: seq<Action>)
    decreases |run|
  {
    run == [] || (Enabled(s, run[0]) && Runs(Apply(s, run[0]), run[1..]))
  }

  function Exec(s: State, run: seq<Action>): (t: State)
    decreases |run|
  {
    if run == [] then s else Exec(Apply(s, run[0]), run[1..])
  }

  /** A new session: no cursor yet, whatever the logs hold. */
  predicate Fresh(r: Room) {
    r.cursor == None && r.batch == None && r.covered == 0 && r.handed == seq(|r.log|, i => 0)
  }

  predicate Init(s: State) {
    s.phase == Idle && forall t :: t in s.rooms ==> Fresh(s.rooms[t])
  }

  // ----- the invariant of one room

  predicate BatchOk(r: Room, phase: Phase)
    requires |r.handed| == |r.log|
  {
    match r.batch
    case None => true
    case Some(b) =>
      && phase != Idle && r.covered <= b.upTo <= |r.log| && (b.above == r.cursor || b.above == None)
      && (forall i :: b.upTo <= i < |r.log| ==> r.handed[i] == 0)
      && (phase == Advancing ==> forall i :: 0 <= i < b.upTo && Above(r.log, i, b.above) ==> r.handed[i] > 0)
  }

  /** The cursor is the id of a message that the last advance had read. */
  predicate CursorOk(r: Room) {
    r.cursor.Some? ==> exists p :: 0 <= p < r.covered <= |r.log| && IdAt(r.log, p) == r.cursor.value
  }

  function IdAt(log: seq<Message>, p: nat): (id: string)
    requires p < |log|
  {
    log[p].id
  }

  predicate RoomOk(r: Room, phase: Phase) {
    && |r.handed| == |r.log| && r.covered <= |r.log| && (r.cursor == None ==> r.covered == 0)
    && BatchOk(r, phase) && CursorOk(r)
  }

  predicate Inv(s: State) {
    forall t :: t in s.rooms ==> RoomOk(s.rooms[t], s.phase)
  }

  lemma AppendKeeps(r: Room, phase: Phase, t: Topic, m: Message)
    requires RoomOk(r, phase)
    ensures RoomOk(StepRoom(r, t, Append(t, m)), phase)
  {
    var r' := StepRoom(r, t, Append(t, m));
    assert forall i :: 0 <= i < |r.log| ==> r'.log[i] == r.log[i];
    assert forall i, c :: 0 <= i < |r.log| ==> Above(r'.log, i, c) == Above(r.log, i, c);
    assert forall i :: 0 <= i < |r.log| ==> r'.handed[i] == r.handed[i];
    assert forall p :: 0 <= p < |r.log| ==> IdAt(r'.log, p) == IdAt(r.log, p);
  }

  lemma ReadKeeps(r: Room, t: Topic, cursorOk: bool)
    requires RoomOk(r, Reading)
    ensures RoomOk(StepRoom(r, t, ReadRoom(t, cursorOk)), Reading)
  {
  }

  lemma DeliverKeeps(r: Room, t: Topic)
    requires RoomOk(r, Reading)
    ensures RoomOk(StepRoom(r, t, Deliver), Advancing)
  {
  }

  lemma HighestIsAbove(r: Room)
    requires Highest(r).Some?
    ensures var p := Highest(r).value;
      && p < r.batch.value.upTo <= |r.log| && Above(r.log, p, r.batch.value.above)
      && forall i :: p < i < r.batch.value.upTo ==> !Above(r.log, i, r.batch.value.above)
  {
    var p, n := Highest(r).value, r.batch.value.upTo;
    assert forall i :: 0 <= i < n ==> Above(r.log[..n], i, r.batch.value.above) == Above(r.log, i, r.batch.value.above);
  }

  lemma AdvanceKeeps(r: Room, t: Topic)
    requires RoomOk(r, Advancing) && Highest(r).Some?
    ensures RoomOk(StepRoom(r, t, Advance(t)), Advancing)
  {
    HighestIsAbove(r);
    var r' := StepRoom(r, t, Advance(t));
    assert IdAt(r'.log, Highest(r).value) == r'.cursor.value;
  }

  lemma OtherKeeps(r: Room, phase: Phase, t: Topic, a: Action)
    requires RoomOk(r, phase) && (a.Append? || a.ReadRoom? || a.Advance? ==> a.t != t)
    requires !a.Deliver?
    ensures RoomOk(StepRoom(r, t, a), NextPhase(phase, a))
  {
  }

  lemma RoomStep(s: State, a: Action, t: Topic)
    requires t in s.rooms && Enabled(s, a) && RoomOk(s.rooms[t], s.phase)
    ensures RoomOk(StepRoom(s.rooms[t], t, a), NextPhase(s.phase, a))
  {
    match a {
      case Append(u, m) => if u == t { AppendKeeps(s.rooms[t], s.phase, t, m); }
      case ReadRoom(u, ok) => if u == t { ReadKeeps(s.rooms[t], t, ok); }
      case Deliver => DeliverKeeps(s.rooms[t], t);
      case Advance(u) => if u == t { AdvanceKeeps(s.rooms[t], t); }
      case _ => OtherKeeps(s.rooms[t], s.phase, t, a);
    }
  }

  lemma InvStep(s: State, a: Action)
    requires Inv(s) && Enabled(s, a)
    ensures Inv(Apply(s, a))
  {
    forall t | t in s.rooms
      ensures RoomOk(StepRoom(s.rooms[t], t, a), NextPhase(s.phase, a))
    {
      RoomStep(s, a, t);
    }
  }

  lemma InvInit(s: State)
    requires Init(s)
    ensures Inv(s)
  {
    forall t | t in s.rooms
      ensures RoomOk(s.rooms[t], s.phase)
    {
      assert Fresh(s.rooms[t]);
    }
  }

  // ----- while every cursor can be read

  /** What was handed over and not covered by an advance is still above the cursor. */
  predicate HandedOk(r: Room)
    requires |r.handed| == |r.log|
  {
    forall i :: r.covered <= i < |r.log| && r.handed[i] > 0 ==> Above(r.log, i, r.cursor)
  }

  predicate Trusted(r: Room) {
    && |r.handed| == |r.log| && HandedOk(r)
    && (r.batch.Some? ==> r.batch.value.above == r.cursor)
  }

  predicate AllTrusted(s: State) {
    forall t :: t in s.rooms ==> Trusted(s.rooms[t])
  }

  predicate CursorRead(a: Action) {
    a.ReadRoom? ==> a.cursorOk
  }

  /** No read of a cursor fails. */
  predicate CursorsRead(run: seq<Action>)
    decreases |run|
  {
    run == [] || (CursorRead(run[0]) && CursorsRead(run[1..]))
  }

  lemma AppendKeepsTrust(r: Room, phase: Phase, t: Topic, m: Message)
    requires RoomOk(r, phase) && Trusted(r)
    ensures Trusted(StepRoom(r, t, Append(t, m)))
  {
    var r' := StepRoom(r, t, Append(t, m));
    assert forall i :: 0 <= i < |r.log| ==> r'.log[i] == r.log[i] && r'.handed[i] == r.handed[i];
    assert forall i, c :: 0 <= i < |r.log| ==> Above(r'.log, i, c) == Above(r.log, i, c);
  }

  lemma TrustStep(s: State, a: Action, t: Topic)
    requires t in s.rooms && Enabled(s, a) && RoomOk(s.rooms[t], s.phase) && Trusted(s.rooms[t]) && CursorRead(a)
    ensures Trusted(StepRoom(s.rooms[t], t, a))
  {
    match a {
      case Append(u, m) => if u == t { AppendKeepsTrust(s.rooms[t], s.phase, t, m); }
      case Advance(u) => if u == t { HighestIsAbove(s.rooms[t]); }
      case _ =>
    }
  }

  lemma AllTrustedStep(s: State, a: Action)
    requires Inv(s) && AllTrusted(s) && Enabled(s, a) && CursorRead(a)
    ensures AllTrusted(Apply(s, a))
  {
    forall t | t in s.rooms
      ensures Trusted(StepRoom(s.rooms[t], t, a))
    {
      TrustStep(s, a, t);
    }
  }

  lemma TrustInit(s: State)
    requires Init(s)
    ensures AllTrusted(s)
  {
    forall t | t in s.rooms
      ensures Trusted(s.rooms[t])
    {
      assert Fresh(s.rooms[t]);
    }
  }

  // ----- the cursor only moves up

  /** However the log is ordered, an advance after the cursor was read moves it strictly up. */
  lemma AdvanceMovesUp(s: State, t: Topic)
    requires Inv(s) && Enabled(s, Advance(t)) && s.rooms[t].batch.value.above == s.rooms[t].cursor
    ensures var before, after := s.rooms[t].cursor, Apply(s, Advance(t)).rooms[t].cursor;
      after.Some? && (before.Some? ==> Strings.Less(before.value, after.value))
  {
    HighestIsAbove(s.rooms[t]);
  }

  /** If ids ascend in the log, no advance moves the cursor down, even if it could not be read. */
  lemma AdvanceNeverDown(s: State, t: Topic)
    requires Inv(s) && Enabled(s, Advance(t)) && Ascending(s.rooms[t].log)
    ensures AtMost(s.rooms[t].cursor, Apply(s, Advance(t)).rooms[t].cursor)
  {
    var r := s.rooms[t];
    HighestIsAbove(r);
    if r.cursor.Some? && r.batch.value.above != r.cursor {
      var p, q :| 0 <= p < r.covered && IdAt(r.log, p) == r.cursor.value && q == Highest(r).value;
      assert Above(r.log, r.batch.value.upTo - 1, None);
      assert p <= q;
      assert p < q ==> Strings.Less(IdAt(r.log, p), IdAt(r.log, q));
    }
  }

  predicate AtMost(a: Option<string>, b: Option<string>) {
    a == b || a.None? || (b.Some? && Strings.Less(a.value, b.value))
  }

  lemma NotAboveStays(log: seq<Message>, i: nat, a: Option<string>, b: Option<string>)
    requires i < |log| && !Above(log, i, a) && AtMost(a, b)
    ensures !Above(log, i, b)
  {
    if a != b && a.Some? && b.Some? && Strings.Less(b.value, log[i].id) {
      Strings.LessTransitive(a.value, b.value, log[i].id);
    }
  }

  lemma CursorStep(s: State, a: Action, t: Topic)
    requires Inv(s) && AllTrusted(s) && Enabled(s, a) && t in s.rooms
    ensures AtMost(s.rooms[t].cursor, Apply(s, a).rooms[t].cursor)
  {
    if a.Advance? && a.t == t {
      AdvanceMovesUp(s, t);
    }
  }

  // ----- loss

  /** The cursor says that entry `i` was seen, and no fire handed it over and wrote its output. */
  predicate Lost(r: Room, i: nat) {
    i < |r.log| && i < |r.handed| && !Above(r.log, i, r.cursor) && r.handed[i] == 0
  }

  /** Entry `i` arrived after the read that the cursor comes from, with an id that is not above the cursor. */
  predicate Overtaken(r: Room, i: nat) {
    r.covered <= i < |r.log| && !Above(r.log, i, r.cursor)
  }

  lemma OvertakenIsLost(r: Room, phase: Phase, i: nat)
    requires RoomOk(r, phase) && Trusted(r) && Overtaken(r, i)
    ensures Lost(r, i)
  {
  }

  lemma LostStays(s: State, a: Action, t: Topic, i: nat)
    requires Inv(s) && AllTrusted(s) && Enabled(s, a) && t in s.rooms && Lost(s.rooms[t], i)
    ensures Lost(Apply(s, a).rooms[t], i)
  {
    var r, r' := s.rooms[t], Apply(s, a).rooms[t];
    CursorStep(s, a, t);
    assert r'.log[i] == r.log[i];
    NotAboveStays(r.log, i, r.cursor, r'.cursor);
    if a.Deliver? {
      assert Trusted(r);
      assert !InBatch(r, i);
    }
  }

  lemma LossIsOvertaking(s: State, a: Action, t: Topic, i: nat)
    requires Inv(s) && Enabled(s, a) && t in s.rooms
    requires !Lost(s.rooms[t], i) && Lost(Apply(s, a).rooms[t], i)
    ensures Overtaken(Apply(s, a).rooms[t], i)
  {
    var r := s.rooms[t];
    assert RoomOk(r, s.phase);
    if a.Advance? && a.t == t {
      HighestIsAbove(r);
    }
  }

  /** `Overtaken` in some state of the run, the first and the last included. */
  predicate EverOvertaken(s: State, run: seq<Action>, t: Topic, i: nat)
    requires t in s.rooms
    decreases |run|
  {
    Overtaken(s.rooms[t], i) || (run != [] && EverOvertaken(Apply(s, run[0]), run[1..], t, i))
  }

  lemma {:induction false} LostIsOvertaken(s: State, run: seq<Action>, t: Topic, i: nat)
    requires Inv(s) && Runs(s, run) && t in s.rooms
    ensures t in Exec(s, run).rooms
    ensures Lost(Exec(s, run).rooms[t], i) ==> Lost(s.rooms[t], i) || EverOvertaken(s, run, t, i)
    decreases |run|
  {
    if run != [] {
      InvStep(s, run[0]);
      LostIsOvertaken(Apply(s, run[0]), run[1..], t, i);
      if !Lost(s.rooms[t], i) && Lost(Apply(s, run[0]).rooms[t], i) {
        LossIsOvertaking(s, run[0], t, i);
      }
    }
  }

  lemma {:induction false} OvertakenIsLostForever(s: State, run: seq<Action>, t: Topic, i: nat)
    requires Inv(s) && AllTrusted(s) && Runs(s, run) && CursorsRead(run) && t in s.rooms
    ensures t in Exec(s, run).rooms
    ensures Lost(s.rooms[t], i) || EverOvertaken(s, run, t, i) ==> Lost(Exec(s, run).rooms[t], i)
    decreases |run|
  {
    if Overtaken(s.rooms[t], i) {
      assert RoomOk(s.rooms[t], s.phase);
      OvertakenIsLost(s.rooms[t], s.phase, i);
    }
    if run != [] {
      InvStep(s, run[0]);
      AllTrustedStep(s, run[0]);
      OvertakenIsLostForever(Apply(s, run[0]), run[1..], t, i);
      if Lost(s.rooms[t], i) {
        LostStays(s, run[0], t, i);
      }
    }
  }

  /** A message is lost only if it was overtaken at some point: it arrived after the read that some cursor
      value comes from, yet its id is not above that value.  Failed writes, failed advances, fires that stop
      half-way and cursors that cannot be read lose nothing.  And unless a cursor could not be read, so that
      old messages were handed over again, every message that was overtaken is lost. */
  lemma LostIff(s: State, run: seq<Action>, t: Topic, i: nat)
    requires Init(s) && Runs(s, run) && t in s.rooms
    ensures t in Exec(s, run).rooms
    ensures Lost(Exec(s, run).rooms[t], i) ==> EverOvertaken(s, run, t, i)
    ensures CursorsRead(run) ==> (Lost(Exec(s, run).rooms[t], i) <==> EverOvertaken(s, run, t, i))
  {
    InvInit(s);
    TrustInit(s);
    LostIsOvertaken(s, run, t, i);
    assert Fresh(s.rooms[t]);
    if CursorsRead(run) {
      OvertakenIsLostForever(s, run, t, i);
    }
  }

  /** A message that arrives with an id at or below the cursor is lost, whatever happens later, as long as
      cursors can be read. */
  lemma LateMessageIsLost(s: State, t: Topic, m: Message, run: seq<Action>)
    requires Inv(s) && AllTrusted(s) && Enabled(s, Append(t, m)) && !ChatLog.Passes(m, s.rooms[t].cursor)
    requires Runs(Apply(s, Append(t, m)), run) && CursorsRead(run)
    ensures var s' := Exec(Apply(s, Append(t, m)), run); t in s'.rooms && Lost(s'.rooms[t], |s.rooms[t].log|)
  {
    var s1 := Apply(s, Append(t, m));
    InvStep(s, Append(t, m));
    AllTrustedStep(s, Append(t, m));
    assert s1.rooms[t].log[|s.rooms[t].log|] == m;
    OvertakenIsLostForever(s1, run, t, |s.rooms[t].log|);
  }

  /** One room, one action. */
  lemma OneRoom(t: Topic, r: Room, phase: Phase, a: Action, rest: seq<Action>)
    ensures var s := State(map[t := r], phase);
      && Apply(s, a) == State(map[t := StepRoom(r, t, a)], NextPhase(phase, a))
      && Exec(s, [a] + rest) == Exec(Apply(s, a), rest)
      && (Runs(s, [a] + rest) <==> Enabled(s, a) && Runs(Apply(s, a), rest))
  {
    assert ([a] + rest)[0] == a && ([a] + rest)[1..] == rest;
  }

  function FireThen(t: Topic, rest: seq<Action>): (run: seq<Action>) {
    [Begin] + ([ReadRoom(t, true)] + ([Deliver] + ([Advance(t)] + ([End] + rest))))
  }

  /** The first half of a fire on one room, by the rooms it goes through. */
  lemma ReadAndDeliver(t: Topic, r: Room, read: Room, handed: Room, rest: seq<Action>)
    requires r.batch == None && read == StepRoom(r, t, ReadRoom(t, true)) && handed == StepRoom(read, t, Deliver)
    ensures
      var s, s' := State(map[t := r], Idle), State(map[t := handed], Advancing);
      var run := [Begin] + ([ReadRoom(t, true)] + ([Deliver] + rest));
      Exec(s, run) == Exec(s', rest) && (Runs(s', rest) ==> Runs(s, run))
  {
    OneRoom(t, r, Idle, Begin, [ReadRoom(t, true)] + ([Deliver] + rest));
    assert StepRoom(r, t, Begin) == r;
    OneRoom(t, r, Reading, ReadRoom(t, true), [Deliver] + rest);
    OneRoom(t, read, Reading, Deliver, rest);
  }

  lemma AdvanceAndEnd(t: Topic, handed: Room, moved: Room, rest: seq<Action>)
    requires Highest(handed).Some? && moved == StepRoom(handed, t, Advance(t))
    ensures
      var s, s' := State(map[t := handed], Advancing), State(map[t := moved], Idle);
      var run := [Advance(t)] + ([End] + rest);
      Exec(s, run) == Exec(s', rest) && (Runs(s', rest) ==> Runs(s, run))
  {
    OneRoom(t, handed, Advancing, Advance(t), [End] + rest);
    OneRoom(t, moved, Advancing, End, rest);
    assert StepRoom(moved, t, End) == moved;
  }

  lemma RoomOfOne(t: Topic, m: Message)
    ensures
      var r := Room([m], None, None, [0], 0);
      var read := r.(batch := Some(Batch(1, None)));
      var handed := read.(handed := [1]);
      && read == StepRoom(r, t, ReadRoom(t, true)) && handed == StepRoom(read, t, Deliver) && Highest(handed) == Some(0)
      && StepRoom(handed, t, Advance(t)) == Room([m], Some(m.id), None, [1], 1)
  {
    var read := Room([m], None, Some(Batch(1, None)), [0], 0);
    assert HandOver(read) == [1];
    assert [m][..1] == [m] && Last([m], None) == Some(0);
  }

  /** Two messages in the wrong order around one fire are enough, with nothing failing. */
  lemma WrongOrderLosesOne(t: Topic, first: Message, second: Message)
    requires WellFormed(first) && WellFormed(second) && Strings.Less(second.id, first.id)
    ensures
      var s := State(map[t := Room([], None, None, [], 0)], Idle);
      var run := [Append(t, first)] + FireThen(t, [Append(t, second)]);
      Init(s) && Runs(s, run) && t in Exec(s, run).rooms && Lost(Exec(s, run).rooms[t], 1)
  {
    var r, moved := Room([first], None, None, [0], 0), Room([first], Some(first.id), None, [1], 1);
    OneRoom(t, Room([], None, None, [], 0), Idle, Append(t, first), FireThen(t, [Append(t, second)]));
    assert StepRoom(Room([], None, None, [], 0), t, Append(t, first)) == r;
    RoomOfOne(t, first);
    var read := r.(batch := Some(Batch(1, None)));
    ReadAndDeliver(t, r, read, read.(handed := [1]), [Advance(t)] + ([End] + [Append(t, second)]));
    AdvanceAndEnd(t, read.(handed := [1]), moved, [Append(t, second)]);
    OneRoom(t, moved, Idle, Append(t, second), []);
    assert [Append(t, second)] + [] == [Append(t, second)];
    Strings.LessTrichotomy(second.id, first.id);
    assert StepRoom(moved, t, Append(t, second)).log[1] == second;
  }

  // ----- ascending ids

  predicate Ascending(log: seq<Message>) {
    forall i, j :: 0 <= i < j < |log| ==> Strings.Less(IdAt(log, i), IdAt(log, j))
  }

  lemma {:induction false} LogGrows(s: State, run: seq<Action>, t: Topic)
    requires t in s.rooms
    ensures t in Exec(s, run).rooms && s.rooms[t].log <= Exec(s, run).rooms[t].log
    decreases |run|
  {
    if run != [] {
      LogGrows(Apply(s, run[0]), run[1..], t);
    }
  }

  lemma AscendingNotOvertaken(r: Room, phase: Phase, i: nat)
    requires RoomOk(r, phase) && Ascending(r.log)
    ensures !Overtaken(r, i)
  {
    if r.cursor.Some? && r.covered <= i < |r.log| {
      var p :| 0 <= p < r.covered && IdAt(r.log, p) == r.cursor.value;
      assert Strings.Less(IdAt(r.log, p), IdAt(r.log, i));
    }
  }

  lemma {:induction false} AscendingNeverOvertaken(s: State, run: seq<Action>, t: Topic, i: nat)
    requires Inv(s) && Runs(s, run) && t in s.rooms && t in Exec(s, run).rooms
    requires Ascending(Exec(s, run).rooms[t].log)
    ensures !EverOvertaken(s, run, t, i)
    decreases |run|
  {
    LogGrows(s, run, t);
    AscendingPrefix(s.rooms[t].log, Exec(s, run).rooms[t].log);
    AscendingNotOvertaken(s.rooms[t], s.phase, i);
    if run != [] {
      InvStep(s, run[0]);
      AscendingNeverOvertaken(Apply(s, run[0]), run[1..], t, i);
    }
  }

  lemma AscendingPrefix(a: seq<Message>, b: seq<Message>)
    requires a <= b && Ascending(b)
    ensures Ascending(a)
  {
    assert forall i :: 0 <= i < |a| ==> IdAt(a, i) == IdAt(b, i);
  }

  /** If ids ascend in the log, then whatever fails, every message at or below the cursor was handed to the
      renderer by a fire that wrote its output. */
  lemma AscendingLosesNothing(s: State, run: seq<Action>, t: Topic, i: nat)
    requires Init(s) && Runs(s, run) && t in s.rooms && t in Exec(s, run).rooms
    requires Ascending(Exec(s, run).rooms[t].log)
    ensures !Lost(Exec(s, run).rooms[t], i)
  {
    InvInit(s);
    LostIff(s, run, t, i);
    AscendingNeverOvertaken(s, run, t, i);
  }

  // ----- exactly once

  /** No read of a cursor fails, and no advance: once the output is written, the fire ends with no advance
      outstanding. */
  predicate Clean(s: State, a: Action) {
    && CursorRead(a)
    && (a.End? && s.phase == Advancing ==> forall t :: t in s.rooms ==> Highest(s.rooms[t]) == None)
  }

  predicate CleanRun(s: State, run: seq<Action>)
    decreases |run|
  {
    run == [] || (Clean(s, run[0]) && CleanRun(Apply(s, run[0]), run[1..]))
  }

  /** Handed over once if the cursor has passed it, or its output is out and its advance is due; else never. */
  predicate Once(r: Room, phase: Phase) {
    forall i :: 0 <= i < |r.log| && i < |r.handed| ==>
      r.handed[i] == if !Above(r.log, i, r.cursor) || (phase == Advancing && InBatch(r, i)) then 1 else 0
  }

  lemma AscendingCovers(r: Room, i: nat)
    requires Highest(r).Some? && Ascending(r.log) && InBatch(r, i)
    ensures !Above(r.log, i, Some(IdAt(r.log, Highest(r).value)))
  {
    HighestIsAbove(r);
    var p := Highest(r).value;
    assert i <= p;
    Strings.LessTrichotomy(IdAt(r.log, i), IdAt(r.log, p));
  }

  lemma AdvanceOnce(r: Room, t: Topic)
    requires RoomOk(r, Advancing) && Trusted(r) && Once(r, Advancing) && Ascending(r.log) && Highest(r).Some?
    ensures Once(StepRoom(r, t, Advance(t)), Advancing)
  {
    HighestIsAbove(r);
    var p, r' := Highest(r).value, StepRoom(r, t, Advance(t));
    assert r'.cursor == Some(IdAt(r.log, p));
    forall i | 0 <= i < |r.log|
      ensures !Above(r'.log, i, r'.cursor) <==> !Above(r.log, i, r.cursor) || InBatch(r, i)
    {
      if InBatch(r, i) {
        AscendingCovers(r, i);
      } else if !Above(r.log, i, r.cursor) {
        NotAboveStays(r.log, i, r.cursor, r'.cursor);
      } else {
        assert Strings.Less(IdAt(r.log, p), IdAt(r.log, i));
      }
    }
  }

  lemma AppendOnce(r: Room, phase: Phase, t: Topic, m: Message)
    requires RoomOk(r, phase) && Once(r, phase) && Ascending(r.log + [m])
    ensures Once(StepRoom(r, t, Append(t, m)), phase)
  {
    var r' := StepRoom(r, t, Append(t, m));
    assert RoomOk(r', phase) by { AppendKeeps(r, phase, t, m); }
    AscendingNotOvertaken(r', phase, |r.log|);
    assert forall i :: 0 <= i < |r.log| ==> r'.log[i] == r.log[i] && r'.handed[i] == r.handed[i];
    assert forall i :: 0 <= i < |r.log| ==> Above(r'.log, i, r.cursor) == Above(r.log, i, r.cursor);
    assert forall i :: 0 <= i < |r.log| ==> InBatch(r', i) == InBatch(r, i);
  }

  lemma NothingOutstanding(r: Room, i: nat)
    requires Highest(r) == None && r.batch.Some? && r.batch.value.upTo <= |r.log|
    ensures !InBatch(r, i)
  {
    var n := r.batch.value.upTo;
    assert InBatch(r, i) ==> Above(r.log[..n], i, r.batch.value.above);
  }

  lemma EndOnce(r: Room, phase: Phase, t: Topic)
    requires RoomOk(r, phase) && Once(r, phase) && (phase == Advancing ==> Highest(r) == None)
    ensures Once(StepRoom(r, t, End), Idle)
  {
    if phase == Advancing && r.batch.Some? {
      forall i
        ensures !InBatch(r, i)
      {
        NothingOutstanding(r, i);
      }
    }
  }

  lemma OnceStep(s: State, a: Action, t: Topic)
    requires Inv(s) && AllTrusted(s) && Enabled(s, a) && Clean(s, a) && t in s.rooms
    requires Once(s.rooms[t], s.phase) && Ascending(Apply(s, a).rooms[t].log)
    ensures Once(Apply(s, a).rooms[t], Apply(s, a).phase)
  {
    var r := s.rooms[t];
    assert RoomOk(r, s.phase) && Trusted(r);
    match a {
      case Append(u, m) => if u == t { AppendOnce(r, s.phase, t, m); }
      case Advance(u) => if u == t { AdvanceOnce(r, t); }
      case End => EndOnce(r, s.phase, t);
      case _ =>
    }
  }

  lemma {:induction false} OnceRun(s: State, run: seq<Action>, t: Topic)
    requires Inv(s) && AllTrusted(s) && Runs(s, run) && CleanRun(s, run) && t in s.rooms && t in Exec(s, run).rooms
    requires Once(s.rooms[t], s.phase) && Ascending(Exec(s, run).rooms[t].log)
    ensures Once(Exec(s, run).rooms[t], Exec(s, run).phase) && RoomOk(Exec(s, run).rooms[t], Exec(s, run).phase)
    decreases |run|
  {
    if run == [] {
      assert RoomOk(s.rooms[t], s.phase);
    } else {
      var s1 := Apply(s, run[0]);
      LogGrows(s1, run[1..], t);
      AscendingPrefix(s1.rooms[t].log, Exec(s, run).rooms[t].log);
      OnceStep(s, run[0], t);
      InvStep(s, run[0]);
      AllTrustedStep(s, run[0]);
      OnceRun(s1, run[1..], t);
    }
  }

  /** If moreover no read of a cursor and no advance fails, then between fires every message at or below the
      cursor was handed over exactly once, and every other one never. */
  lemma ExactlyOnce(s: State, run: seq<Action>, t: Topic, i: nat)
    requires Init(s) && Runs(s, run) && CleanRun(s, run) && t in s.rooms && t in Exec(s, run).rooms
    requires Ascending(Exec(s, run).rooms[t].log) && Exec(s, run).phase == Idle
    ensures var r := Exec(s, run).rooms[t];
      |r.handed| == |r.log| && (i < |r.log| ==> r.handed[i] == if Above(r.log, i, r.cursor) then 0 else 1)
  {
    InvInit(s);
    TrustInit(s);
    assert Fresh(s.rooms[t]);
    OnceRun(s, run, t);
  }
}
