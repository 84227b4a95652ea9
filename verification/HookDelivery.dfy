/** One session's hook fires (`run` in `cc-connect-hook/src/main.rs`), each step of which is a step of
    HookProtocol.  Others may append between any two steps of a fire; each room and each cursor may fail to be
    read, the output to be written, and each cursor to be advanced. */
module HookDelivery {
  import opened ChatLog
  import opened HookProtocol
  import opened Message
  import opened Wrappers
  import CursorFile

  lemma {:induction false} ExecSnoc(s: State, run: seq<Action>, a: Action)
    requires Runs(s, run) && Enabled(Exec(s, run), a)
    ensures Runs(s, run + [a]) && Exec(s, run + [a]) == Apply(Exec(s, run), a)
    decreases |run|
  {
    if run == [] {
      assert [a][1..] == [];
    } else {
      assert (run + [a])[0] == run[0] && (run + [a])[1..] == run[1..] + [a];
      ExecSnoc(Apply(s, run[0]), run[1..], a);
    }
  }

  lemma {:induction false} CleanSnoc(s: State, run: seq<Action>, a: Action)
    requires Runs(s, run) && Enabled(Exec(s, run), a)
    ensures CleanRun(s, run + [a]) <==> CleanRun(s, run) && Clean(Exec(s, run), a)
    decreases |run|
  {
    if run == [] {
      assert [a][0] == a && [a][1..] == [];
    } else {
      assert (run + [a])[0] == run[0] && (run + [a])[1..] == run[1..] + [a];
      CleanSnoc(Apply(s, run[0]), run[1..], a);
    }
  }

  lemma {:induction false} SameTopics(s: State, run: seq<Action>)
    ensures Exec(s, run).rooms.Keys == s.rooms.Keys
    decreases |run|
  {
    if run != [] {
      SameTopics(Apply(s, run[0]), run[1..]);
    }
  }

  ghost predicate Reached(start: State, past: seq<Action>, s: State) {
    Init(start) && Runs(start, past) && s == Exec(start, past)
  }

  /** An advance to `value` is what the fire owes room `r`. */
  predicate Due(r: Room, value: string) {
    Highest(r).Some? && IdAt(r.log, Highest(r).value) == value
  }

  /** Only appends lie between: the log grew, and the rest of the room is the same. */
  predicate Grown(r: Room, r': Room) {
    r.log <= r'.log && r'.batch == r.batch && r'.cursor == r.cursor
  }

  predicate AllGrown(s: State, s': State) {
    s'.phase == s.phase && s'.rooms.Keys == s.rooms.Keys && forall t :: t in s.rooms ==> Grown(s.rooms[t], s'.rooms[t])
  }

  lemma AppendGrows(s: State, s': State, t: Topic, m: Message)
    requires AllGrown(s, s')
    ensures AllGrown(s, Apply(s', HookProtocol.Append(t, m)))
  {
  }

  lemma DueStays(r: Room, r': Room, value: string)
    requires Due(r, value) && Grown(r, r')
    ensures Due(r', value)
  {
    assert r'.log[..r.batch.value.upTo] == r.log[..r.batch.value.upTo];
  }

  /** The part of the log above the cursor. */
  function Unread(log: seq<Message>, cursor: Option<string>): (ms: seq<Message>) {
    if cursor.None? then log else FlatMap(log, ChatLog.Above(cursor.value))
  }

  lemma {:induction false} LastOfUnread(log: seq<Message>, cursor: Option<string>)
    ensures Last(log, cursor) == None <==> Unread(log, cursor) == []
    ensures Last(log, cursor).Some? ==>
      Unread(log, cursor)[|Unread(log, cursor)| - 1] == log[Last(log, cursor).value]
    decreases |log|
  {
    if log != [] && cursor.Some? {
      var n, f := |log| - 1, ChatLog.Above(cursor.value);
      LastOfUnread(log[..n], cursor);
      assert log == log[..n] + [log[n]];
      FlatMapConcat(log[..n], [log[n]], f);
      FlatMapOne(log[n], f);
    }
  }

  lemma ReadIsDue(r: Room, t: Topic, cursorOk: bool, cursor: Option<string>)
    requires cursor == if cursorOk then r.cursor else None
    ensures var r', ms := StepRoom(r, t, ReadRoom(t, cursorOk)), Unread(r.log, cursor);
      r'.log == r.log && r'.cursor == r.cursor && (ms != [] ==> Due(r', ms[|ms| - 1].id))
  {
    LastOfUnread(r.log, cursor);
    assert r.log[..|r.log|] == r.log;
  }

  lemma AdvanceIsDue(r: Room, t: Topic, value: string)
    requires Due(r, value)
    ensures StepRoom(r, t, Advance(t)).log == r.log && StepRoom(r, t, Advance(t)).cursor == Some(value)
  {
  }

  /** `ms` is what the current fire has read from room `r`, and so what a delivery hands over. */
  predicate HasRead(r: Room, ms: seq<Message>) {
    r.batch.Some? && r.batch.value.upTo <= |r.log| && ms == Unread(r.log[..r.batch.value.upTo], r.batch.value.above)
  }

  predicate Distinct(topics: seq<Topic>) {
    forall i, j :: 0 <= i < j < |topics| ==> topics[i] != topics[j]
  }

  function LastId(ms: seq<Message>): (id: string)
    requires ms != []
  {
    ms[|ms| - 1].id
  }

  datatype Owed = Owed(t: Topic, value: string)

  /** One advance for every room that had something unread, to the id read last. */
  predicate Owes(advances: seq<Owed>, rooms: map<Topic, seq<Message>>) {
    && (forall j :: 0 <= j < |advances| ==>
          && advances[j].t in rooms && rooms[advances[j].t] != []
          && advances[j].value == LastId(rooms[advances[j].t]))
    && (forall t :: t in rooms && rooms[t] != [] ==> exists j :: 0 <= j < |advances| && advances[j].t == t)
    && DistinctOwed(advances)
  }

  predicate DistinctOwed(advances: seq<Owed>) {
    forall i, j :: 0 <= i < j < |advances| ==> advances[i].t != advances[j].t
  }

  predicate InLogs(topics: seq<Topic>, logs: set<Topic>) {
    forall i :: 0 <= i < |topics| ==> topics[i] in logs
  }

  ghost predicate Covers(rooms: set<Topic>, topics: seq<Topic>, readable: set<Topic>) {
    forall t :: t in rooms <==> t in topics && t in readable
  }

  lemma CoversMore(rooms: set<Topic>, topics: seq<Topic>, i: nat, readable: set<Topic>)
    requires i < |topics| && Distinct(topics) && Covers(rooms, topics[..i], readable)
    ensures topics[i] !in rooms
    ensures Covers(if topics[i] in readable then rooms + {topics[i]} else rooms, topics[..i + 1], readable)
  {
    assert topics[..i + 1] == topics[..i] + [topics[i]];
  }

  /** The cursors after those of the advances that succeed. */
  function Advanced(cursors: map<Topic, string>, advances: seq<Owed>, ok: set<Topic>): (c: map<Topic, string>)
    decreases |advances|
  {
    if advances == [] then cursors
    else
      var n := |advances| - 1;
      var c := Advanced(cursors, advances[..n], ok);
      if advances[n].t in ok then c[advances[n].t := advances[n].value] else c
  }

  lemma SplitAt(advances: seq<Owed>, k: nat)
    requires k < |advances|
    ensures advances[k..] == [advances[k]] + advances[k + 1..]
    ensures advances[..k + 1][..k] == advances[..k] && advances[..k + 1][k] == advances[k]
  {
  }

  lemma {:induction false} AdvancedElsewhere(cursors: map<Topic, string>, advances: seq<Owed>, ok: set<Topic>, t: Topic)
    requires forall j :: 0 <= j < |advances| ==> advances[j].t != t || t !in ok
    ensures FileOf(Advanced(cursors, advances, ok), t) == FileOf(cursors, t)
    decreases |advances|
  {
    if advances != [] {
      AdvancedElsewhere(cursors, advances[..|advances| - 1], ok, t);
    }
  }

  lemma {:induction false} AdvancedAt(cursors: map<Topic, string>, advances: seq<Owed>, ok: set<Topic>, j: nat)
    requires j < |advances| && DistinctOwed(advances) && advances[j].t in ok
    ensures FileOf(Advanced(cursors, advances, ok), advances[j].t) == Some(advances[j].value)
    decreases |advances|
  {
    var n := |advances| - 1;
    if j < n {
      AdvancedAt(cursors, advances[..n], ok, j);
    }
  }

  function FileOf(cursors: map<Topic, string>, t: Topic): (cursor: Option<string>) {
    if t in cursors then Some(cursors[t]) else None
  }

  /** The cursors as they are read: one that cannot be read counts as none. */
  function AsRead(cursors: map<Topic, string>, readable: set<Topic>): (seen: map<Topic, string>)
    ensures forall t :: FileOf(seen, t) == if t in readable then FileOf(cursors, t) else None
  {
    map t | t in cursors && t in readable :: cursors[t]
  }

  /** The cursors of just the rooms that had something unread, and are in `ok`, have moved: each to the last
      message that was rendered. */
  ghost predicate Moved(before: map<Topic, string>, after: map<Topic, string>, rooms: map<Topic, seq<Message>>,
                        ok: set<Topic>) {
    forall t :: FileOf(after, t) ==
      (if t in rooms && rooms[t] != [] && t in ok then Some(LastId(rooms[t])) else FileOf(before, t))
  }

  lemma AdvancedByRooms(cursors: map<Topic, string>, advances: seq<Owed>, ok: set<Topic>,
                        rooms: map<Topic, seq<Message>>)
    requires Owes(advances, rooms)
    ensures Moved(cursors, Advanced(cursors, advances, ok), rooms, ok)
  {
    forall t
      ensures FileOf(Advanced(cursors, advances, ok), t) ==
        (if t in rooms && rooms[t] != [] && t in ok then Some(LastId(rooms[t])) else FileOf(cursors, t))
    {
      if t in rooms && rooms[t] != [] && t in ok {
        var j :| 0 <= j < |advances| && advances[j].t == t;
        AdvancedAt(cursors, advances, ok, j);
      } else {
        AdvancedElsewhere(cursors, advances, ok, t);
      }
    }
  }

  lemma BeginClears(s: State)
    ensures AllRead(Apply(s, Begin), map[])
  {
  }

  lemma OwesMore(advances: seq<Owed>, rooms: map<Topic, seq<Message>>, t: Topic, ms: seq<Message>)
    requires Owes(advances, rooms) && t !in rooms
    ensures Owes(if ms == [] then advances else advances + [Owed(t, LastId(ms))], rooms[t := ms])
  {
    var more := if ms == [] then advances else advances + [Owed(t, LastId(ms))];
    var after := rooms[t := ms];
    forall u | u in after && after[u] != []
      ensures exists j :: 0 <= j < |more| && more[j].t == u
    {
      if u == t {
        assert more[|advances|].t == u;
      } else {
        var j :| 0 <= j < |advances| && advances[j].t == u;
        assert more[j].t == u;
      }
    }
  }

  /** How far the reading of the rooms has come. */
  predicate AllRead(s: State, rooms: map<Topic, seq<Message>>) {
    s.phase == Reading && forall t :: t in s.rooms ==>
      if t in rooms then HasRead(s.rooms[t], rooms[t]) && (rooms[t] != [] ==> Due(s.rooms[t], LastId(rooms[t])))
      else s.rooms[t].batch == None
  }

  lemma AllReadStays(s: State, s': State, rooms: map<Topic, seq<Message>>)
    requires AllRead(s, rooms) && AllGrown(s, s')
    ensures AllRead(s', rooms)
  {
    forall t | t in s'.rooms && t in rooms
      ensures HasRead(s'.rooms[t], rooms[t]) && (rooms[t] != [] ==> Due(s'.rooms[t], LastId(rooms[t])))
    {
      var r, r' := s.rooms[t], s'.rooms[t];
      assert Grown(r, r') && HasRead(r, rooms[t]);
      assert r'.log[..r.batch.value.upTo] == r.log[..r.batch.value.upTo];
      if rooms[t] != [] {
        DueStays(r, r', LastId(rooms[t]));
      }
    }
  }

  lemma AllReadMore(s: State, rooms: map<Topic, seq<Message>>, t: Topic, cursorOk: bool, cursor: Option<string>)
    requires AllRead(s, rooms) && t in s.rooms && t !in rooms
    requires cursor == if cursorOk then s.rooms[t].cursor else None
    ensures AllRead(Apply(s, ReadRoom(t, cursorOk)), rooms[t := Unread(s.rooms[t].log, cursor)])
  {
    ReadIsDue(s.rooms[t], t, cursorOk, cursor);
    assert s.rooms[t].log[..|s.rooms[t].log|] == s.rooms[t].log;
  }

  predicate AllDue(s: State, advances: seq<Owed>) {
    forall j :: 0 <= j < |advances| ==> advances[j].t in s.rooms && Due(s.rooms[advances[j].t], advances[j].value)
  }

  lemma AllDueStays(s: State, s': State, advances: seq<Owed>)
    requires AllDue(s, advances) && AllGrown(s, s')
    ensures AllDue(s', advances)
  {
    forall j | 0 <= j < |advances|
      ensures Due(s'.rooms[advances[j].t], advances[j].value)
    {
      DueStays(s.rooms[advances[j].t], s'.rooms[advances[j].t], advances[j].value);
    }
  }

  lemma FirstOwed(a: Owed, later: seq<Owed>)
    ensures ([a] + later)[0] == a && forall j :: 0 <= j < |later| ==> ([a] + later)[j + 1] == later[j]
  {
  }

  lemma DueSplit(s: State, a: Owed, later: seq<Owed>, all: seq<Owed>)
    requires |all| == |later| + 1 && all[0] == a && forall j :: 0 <= j < |later| ==> all[j + 1] == later[j]
    requires AllDue(s, all)
    ensures a.t in s.rooms && Due(s.rooms[a.t], a.value) && AllDue(s, later)
  {
    forall j | 0 <= j < |later|
      ensures later[j].t in s.rooms && Due(s.rooms[later[j].t], later[j].value)
    {
      assert all[j + 1] == later[j];
    }
  }

  lemma OthersOwed(a: Owed, later: seq<Owed>, all: seq<Owed>)
    requires |all| == |later| + 1 && all[0] == a && forall j :: 0 <= j < |later| ==> all[j + 1] == later[j]
    requires DistinctOwed(all)
    ensures forall j :: 0 <= j < |later| ==> later[j].t != a.t
  {
    forall j | 0 <= j < |later|
      ensures later[j].t != a.t
    {
      assert all[j + 1] == later[j];
    }
  }

  lemma DueElsewhere(s: State, t: Topic, later: seq<Owed>)
    requires AllDue(s, later) && forall j :: 0 <= j < |later| ==> later[j].t != t
    ensures AllDue(Apply(s, Advance(t)), later)
  {
  }

  lemma DeliverKeepsDue(s: State, rooms: map<Topic, seq<Message>>, advances: seq<Owed>)
    requires AllRead(s, rooms) && Owes(advances, rooms) && rooms.Keys <= s.rooms.Keys
    ensures AllDue(Apply(s, Deliver), advances)
  {
    forall j | 0 <= j < |advances|
      ensures Due(Apply(s, Deliver).rooms[advances[j].t], advances[j].value)
    {
      var t := advances[j].t;
      assert Due(s.rooms[t], advances[j].value);
      var r, r' := s.rooms[t], StepRoom(s.rooms[t], t, Deliver);
      assert r'.log == r.log && r'.batch == r.batch;
    }
  }

  // ----- what is still owed

  /** No room but those in `due` has an advance outstanding. */
  predicate OnlyDue(s: State, due: set<Topic>) {
    forall t :: t in s.rooms ==> (t in due || NothingDue(s.rooms[t]))
  }

  predicate NothingDue(r: Room) {
    (r.batch.Some? ==> r.batch.value.upTo <= |r.log|) && Highest(r) == None
  }

  lemma OnlyDueStays(s: State, s': State, due: set<Topic>)
    requires OnlyDue(s, due) && AllGrown(s, s')
    ensures OnlyDue(s', due)
  {
    forall t | t in s'.rooms && t !in due
      ensures NothingDue(s'.rooms[t])
    {
      var r, r' := s.rooms[t], s'.rooms[t];
      assert NothingDue(r) && Grown(r, r');
      if r.batch.Some? {
        assert r'.log[..r.batch.value.upTo] == r.log[..r.batch.value.upTo];
      }
    }
  }

  function WithUnread(rooms: map<Topic, seq<Message>>): (due: set<Topic>) {
    set t | t in rooms && rooms[t] != []
  }

  lemma OnlyDueAfterDeliver(s: State, rooms: map<Topic, seq<Message>>)
    requires AllRead(s, rooms)
    ensures OnlyDue(Apply(s, Deliver), WithUnread(rooms))
  {
    forall t | t in s.rooms && t !in WithUnread(rooms)
      ensures NothingDue(StepRoom(s.rooms[t], t, Deliver))
    {
      var r := s.rooms[t];
      if t in rooms {
        assert HasRead(r, rooms[t]);
        LastOfUnread(r.log[..r.batch.value.upTo], r.batch.value.above);
      }
    }
  }

  lemma OnlyDueAdvance(s: State, t: Topic, due: set<Topic>)
    requires OnlyDue(s, due) && t in s.rooms && Highest(s.rooms[t]).Some?
    ensures OnlyDue(Apply(s, Advance(t)), due - {t})
  {
  }

  lemma EndsClean(s: State, due: set<Topic>)
    requires OnlyDue(s, due) && due == {}
    ensures Clean(s, End)
  {
    forall t | t in s.rooms
      ensures Highest(s.rooms[t]) == None
    {
      assert NothingDue(s.rooms[t]);
    }
  }

  /** What is left of `due` after the advances that succeed. */
  function Remaining(due: set<Topic>, advances: seq<Owed>, ok: set<Topic>): (left: set<Topic>)
    decreases |advances|
  {
    if advances == [] then due
    else
      var n := |advances| - 1;
      Remaining(due, advances[..n], ok) - if advances[n].t in ok then {advances[n].t} else {}
  }

  lemma {:induction false} RemainingIff(due: set<Topic>, advances: seq<Owed>, ok: set<Topic>, t: Topic)
    ensures t in Remaining(due, advances, ok) <==>
            t in due && !(t in ok && exists j :: 0 <= j < |advances| && advances[j].t == t)
    decreases |advances|
  {
    if advances != [] {
      var n := |advances| - 1;
      RemainingIff(due, advances[..n], ok, t);
      assert forall j :: 0 <= j < n ==> advances[..n][j] == advances[j];
    }
  }

  lemma AllSettled(rooms: map<Topic, seq<Message>>, advances: seq<Owed>, ok: set<Topic>)
    requires Owes(advances, rooms) && WithUnread(rooms) <= ok
    ensures Remaining(WithUnread(rooms), advances, ok) == {}
  {
    forall t
      ensures t !in Remaining(WithUnread(rooms), advances, ok)
    {
      RemainingIff(WithUnread(rooms), advances, ok, t);
    }
  }

  function Turn(schedule: seq<seq<(Topic, Message)>>, k: nat): (appends: seq<(Topic, Message)>) {
    if k < |schedule| then schedule[k] else []
  }

  predicate LogsGrown(before: map<Topic, seq<Message>>, after: map<Topic, seq<Message>>) {
    before.Keys == after.Keys && forall t :: t in before ==> before[t] <= after[t]
  }

  /** A room was read above the cursor at some moment between two states of its log. */
  ghost predicate ReadBetween(ms: seq<Message>, before: seq<Message>, after: seq<Message>, cursor: Option<string>) {
    exists n :: |before| <= n <= |after| && before <= after && ms == Unread(after[..n], cursor)
  }

  ghost predicate Rendered(rooms: map<Topic, seq<Message>>, before: map<Topic, seq<Message>>,
                           after: map<Topic, seq<Message>>, cursors: map<Topic, string>) {
    forall t :: t in rooms ==>
      t in before && t in after && ReadBetween(rooms[t], before[t], after[t], FileOf(cursors, t))
  }

  lemma ReadNow(before: seq<Message>, now: seq<Message>, cursor: Option<string>)
    requires before <= now
    ensures ReadBetween(Unread(now, cursor), before, now, cursor)
  {
    assert now[..|now|] == now;
  }

  lemma ReadEarlier(ms: seq<Message>, before: seq<Message>, now: seq<Message>, after: seq<Message>,
                    cursor: Option<string>)
    requires ReadBetween(ms, before, now, cursor) && now <= after
    ensures ReadBetween(ms, before, after, cursor)
  {
    var n :| |before| <= n <= |now| && ms == Unread(now[..n], cursor);
    assert after[..n] == now[..n];
  }

  lemma RenderedStays(rooms: map<Topic, seq<Message>>, before: map<Topic, seq<Message>>,
                      now: map<Topic, seq<Message>>, after: map<Topic, seq<Message>>, cursors: map<Topic, string>)
    requires Rendered(rooms, before, now, cursors) && LogsGrown(now, after)
    ensures Rendered(rooms, before, after, cursors)
  {
    forall t | t in rooms
      ensures ReadBetween(rooms[t], before[t], after[t], FileOf(cursors, t))
    {
      ReadEarlier(rooms[t], before[t], now[t], after[t], FileOf(cursors, t));
    }
  }

  lemma RenderedMore(rooms: map<Topic, seq<Message>>, before: map<Topic, seq<Message>>,
                     now: map<Topic, seq<Message>>, cursors: map<Topic, string>, t: Topic)
    requires Rendered(rooms, before, now, cursors) && LogsGrown(before, now) && t in now
    ensures Rendered(rooms[t := Unread(now[t], FileOf(cursors, t))], before, now, cursors)
  {
    ReadNow(before[t], now[t], FileOf(cursors, t));
  }

  lemma KeysMore(rooms: map<Topic, seq<Message>>, t: Topic, ms: seq<Message>)
    ensures rooms[t := ms].Keys == rooms.Keys + {t}
  {
  }

  lemma SoFarMore(s: State, rooms: map<Topic, seq<Message>>, advances: seq<Owed>, before: map<Topic, seq<Message>>,
                  now: map<Topic, seq<Message>>, seen: map<Topic, string>, t: Topic, cursorOk: bool,
                  ms: seq<Message>)
    requires AllRead(s, rooms) && Owes(advances, rooms) && Rendered(rooms, before, now, seen)
    requires LogsGrown(before, now) && t in s.rooms && t in now && t !in rooms && s.rooms[t].log == now[t]
    requires FileOf(seen, t) == if cursorOk then s.rooms[t].cursor else None
    requires ms == Unread(now[t], FileOf(seen, t))
    ensures AllRead(Apply(s, ReadRoom(t, cursorOk)), rooms[t := ms]) && Rendered(rooms[t := ms], before, now, seen)
    ensures Owes(if ms == [] then advances else advances + [Owed(t, LastId(ms))], rooms[t := ms])
  {
    AllReadMore(s, rooms, t, cursorOk, FileOf(seen, t));
    RenderedMore(rooms, before, now, seen, t);
    OwesMore(advances, rooms, t, ms);
  }

  function NewSession(logs: map<Topic, seq<Message>>): (s: State)
    ensures Init(s) && s.rooms.Keys == logs.Keys && s.phase == Idle
    ensures forall t :: t in logs ==> s.rooms[t].log == logs[t] && s.rooms[t].cursor == None
  {
    State(map t | t in logs :: NewRoom(logs[t]), Idle)
  }

  function NewRoom(log: seq<Message>): (r: Room)
    ensures Fresh(r) && r.log == log
  {
    Room(log, None, None, seq(|log|, i => 0), 0)
  }

  class HookSession {
    var logs: map<Topic, seq<Message>>
    var cursors: map<Topic, string>
    ghost var start: State
    ghost var past: seq<Action>
    ghost var s: State
    ghost var writes: nat
    ghost var clean: bool   // no read of a cursor and no advance has failed

    function Cursor(t: Topic): (cursor: Option<string>)
      reads this
    {
      FileOf(cursors, t)
    }

    ghost predicate Valid()
      reads this
    {
      && Reached(start, past, s) && (clean ==> CleanRun(start, past)) && s.rooms.Keys == logs.Keys
      && forall t :: t in logs ==> s.rooms[t].log == logs[t] && s.rooms[t].cursor == Cursor(t)
    }

    ghost predicate Kept(start0: State, past0: seq<Action>, clean0: bool)
      reads this
    {
      Valid() && start == start0 && past0 <= past && clean == clean0
    }

    /** A new session among rooms that may already hold messages. */
    constructor (logs: map<Topic, seq<Message>>)
      ensures Valid() && clean && s.phase == Idle && writes == 0 && this.logs == logs && cursors == map[]
    {
      this.logs, cursors := logs, map[];
      writes, past, clean := 0, [], true;
      start := NewSession(logs);
      s := NewSession(logs);
    }

    /** One step of the machine; `writes` counts the fires that wrote their output. */
    ghost method Do(a: Action)
      requires Reached(start, past, s) && (clean ==> CleanRun(start, past)) && Enabled(s, a)
      modifies `past, `s, `writes, `clean
      ensures Reached(start, past, s) && (clean ==> CleanRun(start, past))
      ensures past == old(past) + [a] && s == Apply(old(s), a)
      ensures writes == old(writes) + if a.Deliver? then 1 else 0
      ensures clean == (old(clean) && Clean(old(s), a))
    {
      ExecSnoc(start, past, a);
      CleanSnoc(start, past, a);
      clean := clean && Clean(s, a);
      s := Apply(s, a);
      past := past + [a];
      writes := writes + if a.Deliver? then 1 else 0;
    }

    method Append(t: Topic, m: Message)
      requires Valid() && t in logs && WellFormed(m)
      modifies this
      ensures writes == old(writes) && Kept(old(start), old(past), old(clean))
      ensures s == Apply(old(s), HookProtocol.Append(t, m))
      ensures cursors == old(cursors) && logs == old(logs)[t := old(logs)[t] + [m]]
    {
      Do(HookProtocol.Append(t, m));
      logs := logs[t := logs[t] + [m]];
    }

    /** Others append what they like. */
    method Others(appends: seq<(Topic, Message)>)
      requires Valid()
      modifies this
      ensures writes == old(writes) && Kept(old(start), old(past), old(clean)) && cursors == old(cursors)
      ensures AllGrown(old(s), s) && LogsGrown(old(logs), logs)
    {
      var i := 0;
      while i < |appends|
        invariant writes == old(writes) && Kept(old(start), old(past), old(clean)) && cursors == old(cursors)
        invariant AllGrown(old(s), s) && LogsGrown(old(logs), logs)
      {
        var (t, m) := appends[i];
        if t in logs && WellFormed(m) {
          AppendGrows(old(s), s, t, m);
          Append(t, m);
        }
        i := i + 1;
      }
    }

    /** How far the loop over the topics has come since the files held `logs0` and `cursors0`; `seen` is what
        there is to read of the cursors. */
    ghost predicate ReadSoFar(logs0: map<Topic, seq<Message>>, cursors0: map<Topic, string>,
                              seen: map<Topic, string>, rooms: map<Topic, seq<Message>>, advances: seq<Owed>)
      reads this
    {
      && AllRead(s, rooms) && Owes(advances, rooms) && Rendered(rooms, logs0, logs, seen)
      && LogsGrown(logs0, logs) && cursors == cursors0
    }

    method OthersWhileReading(appends: seq<(Topic, Message)>, ghost logs0: map<Topic, seq<Message>>,
                              ghost seen: map<Topic, string>, ghost rooms: map<Topic, seq<Message>>,
                              ghost advances: seq<Owed>)
      requires Valid() && ReadSoFar(logs0, cursors, seen, rooms, advances)
      modifies this
      ensures writes == old(writes) && Kept(old(start), old(past), old(clean))
      ensures ReadSoFar(logs0, old(cursors), seen, rooms, advances)
    {
      Others(appends);
      AllReadStays(old(s), s, rooms);
      RenderedStays(rooms, logs0, old(logs), logs, seen);
    }

    /** Read the cursor, then the log above it. */
    method ReadUnread(t: Topic, cursorOk: bool) returns (messages: seq<Message>)
      requires Valid() && t in logs && s.phase == Reading && s.rooms[t].batch == None
      modifies `past, `s, `writes, `clean
      ensures writes == old(writes) && Kept(old(start), old(past), old(clean) && cursorOk)
      ensures s == Apply(old(s), ReadRoom(t, cursorOk))
      ensures messages == Unread(logs[t], if cursorOk then Cursor(t) else None)
    {
      var cursor := if cursorOk then Cursor(t) else None;
      messages := Unread(logs[t], cursor);
      ReadIsDue(s.rooms[t], t, cursorOk, cursor);
      Do(ReadRoom(t, cursorOk));
    }

    method AdvanceTo(t: Topic, value: string)
      requires Valid() && t in logs && s.phase == Advancing && Due(s.rooms[t], value)
      modifies `past, `s, `cursors, `writes, `clean
      ensures writes == old(writes) && Kept(old(start), old(past), old(clean))
      ensures s == Apply(old(s), Advance(t)) && cursors == old(cursors)[t := value]
    {
      AdvanceIsDue(s.rooms[t], t, value);
      Do(Advance(t));
      cursors := cursors[t := value];
    }

    /** One turn of the loop over the topics. */
    method ReadOne(t: Topic, cursorOk: bool, rooms0: map<Topic, seq<Message>>, advances0: seq<Owed>,
                   ghost logs0: map<Topic, seq<Message>>, ghost seen: map<Topic, string>)
      returns (rooms: map<Topic, seq<Message>>, advances: seq<Owed>)
      requires Valid() && ReadSoFar(logs0, cursors, seen, rooms0, advances0) && t !in rooms0 && t in logs
      requires FileOf(seen, t) == if cursorOk then Cursor(t) else None
      modifies this
      ensures writes == old(writes) && Kept(old(start), old(past), old(clean) && cursorOk)
      ensures ReadSoFar(logs0, old(cursors), seen, rooms, advances)
      ensures rooms.Keys == rooms0.Keys + {t}
    {
      var messages := ReadUnread(t, cursorOk);
      SoFarMore(old(s), rooms0, advances0, logs0, logs, seen, t, cursorOk, messages);
      advances := advances0;
      if messages != [] {
        advances := advances + [Owed(t, LastId(messages))];
      }
      rooms := rooms0[t := messages];
      KeysMore(rooms0, t, messages);
    }

    /** Let others append, then read the room unless that fails. */
    method ReadTurn(t: Topic, readable: bool, cursorOk: bool, meanwhile: seq<(Topic, Message)>,
                    rooms0: map<Topic, seq<Message>>, advances0: seq<Owed>,
                    ghost logs0: map<Topic, seq<Message>>, ghost seen: map<Topic, string>)
      returns (rooms: map<Topic, seq<Message>>, advances: seq<Owed>)
      requires Valid() && ReadSoFar(logs0, cursors, seen, rooms0, advances0) && t !in rooms0 && t in logs0
      requires FileOf(seen, t) == if cursorOk then Cursor(t) else None
      modifies this
      ensures writes == old(writes) && Kept(old(start), old(past), old(clean) && (readable ==> cursorOk))
      ensures ReadSoFar(logs0, old(cursors), seen, rooms, advances)
      ensures rooms.Keys == if readable then rooms0.Keys + {t} else rooms0.Keys
    {
      OthersWhileReading(meanwhile, logs0, seen, rooms0, advances0);
      rooms, advances := rooms0, advances0;
      if readable {
        rooms, advances := ReadOne(t, cursorOk, rooms0, advances0, logs0, seen);
      }
    }

    /** The loop over the topics; a room that cannot be read is left out, a cursor that cannot be read counts
        as none. */
    method ReadRooms(topics: seq<Topic>, readable: set<Topic>, cursorOk: set<Topic>,
                     schedule: seq<seq<(Topic, Message)>>, ghost seen: map<Topic, string>)
      returns (rooms: map<Topic, seq<Message>>, advances: seq<Owed>)
      requires Valid() && ReadSoFar(logs, cursors, seen, map[], []) && seen == AsRead(cursors, cursorOk)
      requires Distinct(topics) && InLogs(topics, logs.Keys)
      modifies this
      ensures writes == old(writes) && Kept(old(start), old(past), old(clean) && rooms.Keys <= cursorOk)
      ensures ReadSoFar(old(logs), old(cursors), seen, rooms, advances)
      ensures Covers(rooms.Keys, topics, readable)
    {
      rooms, advances := map[], [];
      var i := 0;
      while i < |topics|
        invariant 0 <= i <= |topics|
        invariant writes == old(writes) && Kept(old(start), old(past), old(clean) && rooms.Keys <= cursorOk)
        invariant ReadSoFar(old(logs), old(cursors), seen, rooms, advances)
        invariant Covers(rooms.Keys, topics[..i], readable)
      {
        var t := topics[i];
        CoversMore(rooms.Keys, topics, i, readable);
        rooms, advances :=
          ReadTurn(t, t in readable, t in cursorOk, Turn(schedule, i), rooms, advances, old(logs), seen);
        i := i + 1;
      }
      assert topics[..|topics|] == topics;
    }

    /** The loop over the advances owed; one that fails is skipped. */
    method AdvanceCursors(advances: seq<Owed>, advanceOk: set<Topic>, schedule: seq<seq<(Topic, Message)>>,
                          ghost due: set<Topic>)
      requires Valid() && s.phase == Advancing && AllDue(s, advances) && DistinctOwed(advances) && OnlyDue(s, due)
      modifies this
      ensures writes == old(writes) && Kept(old(start), old(past), old(clean))
      ensures s.phase == Advancing && LogsGrown(old(logs), logs)
      ensures cursors == Advanced(old(cursors), advances, advanceOk)
      ensures OnlyDue(s, Remaining(due, advances, advanceOk))
    {
      var k := 0;
      while k < |advances|
        invariant 0 <= k <= |advances|
        invariant writes == old(writes) && Kept(old(start), old(past), old(clean))
        invariant s.phase == Advancing && LogsGrown(old(logs), logs)
        invariant AllDue(s, advances[k..])
        invariant cursors == Advanced(old(cursors), advances[..k], advanceOk)
        invariant OnlyDue(s, Remaining(due, advances[..k], advanceOk))
      {
        var a := advances[k];
        SplitAt(advances, k);
        AdvanceOne(a, a.t in advanceOk, Turn(schedule, k), advances[k + 1..],
                   Remaining(due, advances[..k], advanceOk));
        k := k + 1;
      }
      assert advances[..|advances|] == advances;
    }

    method AdvanceOne(a: Owed, ok: bool, meanwhile: seq<(Topic, Message)>, ghost later: seq<Owed>,
                      ghost due: set<Topic>)
      requires Valid() && s.phase == Advancing && AllDue(s, [a] + later)
      requires DistinctOwed([a] + later) && OnlyDue(s, due)
      modifies this
      ensures writes == old(writes) && Kept(old(start), old(past), old(clean))
      ensures s.phase == Advancing && LogsGrown(old(logs), logs)
      ensures AllDue(s, later) && OnlyDue(s, due - if ok then {a.t} else {})
      ensures cursors == if ok then old(cursors)[a.t := a.value] else old(cursors)
    {
      Others(meanwhile);
      AllDueStays(old(s), s, [a] + later);
      OnlyDueStays(old(s), s, due);
      FirstOwed(a, later);
      DueSplit(s, a, later, [a] + later);
      OthersOwed(a, later, [a] + later);
      if ok {
        DueElsewhere(s, a.t, later);
        OnlyDueAdvance(s, a.t, due);
        AdvanceTo(a.t, a.value);
      }
    }

    /** The output is out. */
    method WriteOutput(ghost rooms: map<Topic, seq<Message>>, ghost advances: seq<Owed>)
      requires Valid() && AllRead(s, rooms) && Owes(advances, rooms) && rooms.Keys <= logs.Keys
      modifies `past, `s, `writes, `clean
      ensures writes == old(writes) + 1 && Kept(old(start), old(past), old(clean)) && s.phase == Advancing
      ensures AllDue(s, advances) && OnlyDue(s, WithUnread(rooms))
    {
      DeliverKeepsDue(s, rooms, advances);
      OnlyDueAfterDeliver(s, rooms);
      Do(Deliver);
    }

    /** Only once the output is out may the cursors move. */
    method WriteAndAdvance(rooms: map<Topic, seq<Message>>, advances: seq<Owed>, advanceOk: set<Topic>,
                           schedule: seq<seq<(Topic, Message)>>)
      requires Valid() && AllRead(s, rooms) && Owes(advances, rooms) && rooms.Keys <= logs.Keys
      modifies this
      ensures writes == old(writes) + 1
      ensures Kept(old(start), old(past), old(clean)) && s.phase == Advancing && LogsGrown(old(logs), logs)
      ensures Moved(old(cursors), cursors, rooms, advanceOk)
      ensures WithUnread(rooms) <= advanceOk ==> Clean(s, End)
    {
      WriteOutput(rooms, advances);
      AdvanceCursors(advances, advanceOk, schedule, WithUnread(rooms));
      AdvancedByRooms(old(cursors), advances, advanceOk, rooms);
      if WithUnread(rooms) <= advanceOk {
        AllSettled(rooms, advances, advanceOk);
        EndsClean(s, Remaining(WithUnread(rooms), advances, advanceOk));
      }
    }

    method BeginAndRead(topics: seq<Topic>, readable: set<Topic>, cursorOk: set<Topic>,
                        schedule: seq<seq<(Topic, Message)>>)
      returns (rooms: map<Topic, seq<Message>>, advances: seq<Owed>)
      requires Valid() && s.phase == Idle && Distinct(topics) && InLogs(topics, logs.Keys)
      modifies this
      ensures writes == old(writes) && Kept(old(start), old(past), old(clean) && rooms.Keys <= cursorOk)
      ensures ReadSoFar(old(logs), old(cursors), AsRead(old(cursors), cursorOk), rooms, advances)
      ensures Covers(rooms.Keys, topics, readable)
    {
      BeginClears(s);
      Do(Begin);
      assert s.rooms.Keys == logs.Keys;
      rooms, advances := ReadRooms(topics, readable, cursorOk, schedule, AsRead(cursors, cursorOk));
    }

    method EndFire()
      requires Valid() && s.phase != Idle
      modifies `past, `s, `writes, `clean
      ensures writes == old(writes) && Kept(old(start), old(past), old(clean) && Clean(old(s), End))
      ensures s.phase == Idle
    {
      Do(End);
    }

    /** One fire of the hook.  `rooms` is what it renders; its output is lost if `stdoutOk` is false.  A fire that
        reads every cursor, and whose advances all succeed if it wrote its output, is a clean one. */
    method Fire(topics: seq<Topic>, readable: set<Topic>, cursorOk: set<Topic>, stdoutOk: bool,
                advanceOk: set<Topic>, reading: seq<seq<(Topic, Message)>>, advancing: seq<seq<(Topic, Message)>>)
      returns (rooms: map<Topic, seq<Message>>)
      requires Valid() && s.phase == Idle && Distinct(topics) && InLogs(topics, logs.Keys)
      modifies this
      ensures writes == old(writes) + if stdoutOk then 1 else 0
      ensures Valid() && start == old(start) && old(past) <= past && s.phase == Idle && LogsGrown(old(logs), logs)
      ensures Covers(rooms.Keys, topics, readable)
      ensures Rendered(rooms, old(logs), logs, AsRead(old(cursors), cursorOk))
      ensures Moved(old(cursors), cursors, rooms, if stdoutOk then advanceOk else {})
      ensures old(clean) && rooms.Keys <= cursorOk && (stdoutOk ==> WithUnread(rooms) <= advanceOk) ==> clean
    {
      var advances;
      rooms, advances := BeginAndRead(topics, readable, cursorOk, reading);
      ghost var now := logs;
      DeliverAndEnd(rooms, advances, stdoutOk, advanceOk, advancing);
      RenderedStays(rooms, old(logs), now, logs, AsRead(old(cursors), cursorOk));
    }

    /** The second half of a fire, once it has read. */
    method DeliverAndEnd(rooms: map<Topic, seq<Message>>, advances: seq<Owed>, stdoutOk: bool,
                         advanceOk: set<Topic>, schedule: seq<seq<(Topic, Message)>>)
      requires Valid() && AllRead(s, rooms) && Owes(advances, rooms) && rooms.Keys <= logs.Keys
      modifies this
      ensures writes == old(writes) + if stdoutOk then 1 else 0
      ensures Valid() && start == old(start) && old(past) <= past && s.phase == Idle && LogsGrown(old(logs), logs)
      ensures Moved(old(cursors), cursors, rooms, if stdoutOk then advanceOk else {})
      ensures old(clean) && (stdoutOk ==> WithUnread(rooms) <= advanceOk) ==> clean
    {
      if stdoutOk {
        WriteAndAdvance(rooms, advances, advanceOk, schedule);
      }
      EndFire();
    }

    /** After any number of clean fires among ascending messages, every message at or below the cursor was handed
        over exactly once, and every other one never. */
    lemma CleanFiresDeliverOnce(t: Topic, i: nat)
      requires Valid() && clean && s.phase == Idle && t in logs && i < |logs[t]| && Ascending(logs[t])
      ensures |s.rooms[t].handed| == |logs[t]|
      ensures s.rooms[t].handed[i] == if ChatLog.Passes(logs[t][i], Cursor(t)) then 0 else 1
    {
      SameTopics(start, past);
      ExactlyOnce(start, past, t, i);
    }
  }

  // ----- the files behind a room

  /** What the hook takes as the cursor: an unreadable or malformed file counts as none. */
  function CursorIn(file: Option<seq<byte>>): (cursor: Option<string>) {
    match CursorFile.Read(file)
    case Success(c) => c
    case Failure(_) => None
  }

  /** The log file and the cursor file hold `log` and `cursor`. */
  predicate Represent(content: seq<byte>, file: Option<seq<byte>>, log: seq<Message>, cursor: Option<string>) {
    WholeLines(content) && Scan(content, None) == log && CursorIn(file) == cursor
  }

  /** A new session has no cursor file.  An empty one says no more, and neither does one that cannot be read: the
      hook then reads above no cursor. */
  lemma FilesOfNewSession(content: seq<byte>, log: seq<Message>, file: seq<byte>)
    requires WholeLines(content) && Scan(content, None) == log
    ensures Represent(content, None, log, None) && Represent(content, Some([]), log, None)
    ensures CursorFile.Read(Some(file)).Failure? ==> Represent(content, Some(file), log, None)
  {
    CursorFile.ReadIff("", "", "", []);
  }

  /** Reading the files gives the unread part of the log, all of it well-formed. */
  lemma FilesRead(content: seq<byte>, file: Option<seq<byte>>, log: seq<Message>, cursor: Option<string>)
    requires Represent(content, file, log, cursor)
    ensures Scan(content, CursorIn(file)) == Unread(log, cursor)
    ensures forall m :: m in log ==> WellFormed(m)
  {
    ReadsWellFormed(Lines(content), None);
    if cursor.Some? {
      CursorOnlyFilters(Lines(content), cursor.value);
    }
  }

  lemma FilesAppend(content: seq<byte>, file: Option<seq<byte>>, log: seq<Message>, cursor: Option<string>, m: Message)
    requires Represent(content, file, log, cursor) && WellFormed(m)
    ensures Represent(content + Payload(m), file, log + [m], cursor)
  {
    AppendThenRead(content, m, None);
  }

  lemma FilesAdvance(content: seq<byte>, file: Option<seq<byte>>, log: seq<Message>, cursor: Option<string>, m: Message)
    requires Represent(content, file, log, cursor) && m in log
    ensures Represent(content, Some(CursorFile.Written(m.id)), log, Some(m.id))
  {
    FilesRead(content, file, log, cursor);
    CursorFile.UlidReadsBack(m.id);
  }
}
