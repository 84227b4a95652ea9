/** Room membership and the consent gate (`session_state.rs`, `accept.rs`) as a step machine: any number of
    processes read and rewrite unlocked files, in any interleaving, and may stop anywhere. */
module ConsentGate {
  import opened Wrappers

  type Proc = nat
  type Pid = nat
  type Topic = string
  type Token = string

  datatype Pending = Pending(pid: Pid, topic: Topic)

  /** The rooms file of a Claude process. */
  datatype File = Absent | Unreadable | Rooms(topics: seq<Topic>)

  /** What binds a topic to a Claude: it created the room, or a human accepted its pending join. */
  datatype Consent = Created(to: Pending) | Consumed(token: Token, to: Pending)

  /** Where a process is.  `WriteBack` holds the contents that it is about to write. */
  datatype Task =
    | Adding(pid: Pid, topic: Topic)
    | Removing(pid: Pid, topic: Topic)
    | Clearing(pid: Pid)
    | WriteBack(pid: Pid, topics: seq<Topic>)
    | Consuming(token: Token)
    | Staging(token: Token, to: Pending)
    | Accepted(to: Pending)

  /** `filed` is every pending join ever created, and `consents` every consent ever given, in order. */
  datatype State = State(
    files: map<Pid, File>,
    pending: map<Token, Pending>,
    tasks: map<Proc, Task>,
    filed: map<Token, Pending>,
    consents: seq<Consent>)

  datatype Action =
    | CreateRoom(p: Proc, to: Pending)
    | FilePending(token: Token, to: Pending)
    | BeginAccept(p: Proc, token: Token)
    | BeginRemove(p: Proc, pid: Pid, topic: Topic)
    | BeginClear(p: Proc, pid: Pid)
    | Read(p: Proc)
    | Write(p: Proc)
    | ReadPending(p: Proc)
    | Rename(p: Proc)
    | StartDaemon(p: Proc)
    | Stop(p: Proc)
    | Prune(pid: Pid)

  function FileOf(files: map<Pid, File>, pid: Pid): (f: File) {
    if pid in files then files[pid] else Absent
  }

  // ----- the edits of a topic list

  /** `add_topic`: any read error counts as an empty list. */
  function WithTopic(f: File, topic: Topic): (topics: seq<Topic>) {
    var known := if f.Rooms? then f.topics else [];
    if topic in known then known else known + [topic]
  }

  function Without(topics: seq<Topic>, topic: Topic): (kept: seq<Topic>)
    decreases |topics|
  {
    if topics == [] then []
    else
      var n := |topics| - 1;
      Without(topics[..n], topic) + if topics[n] == topic then [] else [topics[n]]
  }

  /** What the read half of an operation decides to write; `None` ends the operation. */
  function Edit(f: File, task: Task): (topics: Option<seq<Topic>>)
    requires task.Adding? || task.Removing? || task.Clearing?
  {
    match task
    case Adding(_, topic) => Some(WithTopic(f, topic))
    case Removing(_, topic) =>
      if f.Rooms? && |Without(f.topics, topic)| != |f.topics| then Some(Without(f.topics, topic)) else None
    case Clearing(_) => if f.Absent? then None else Some([])
  }

  // ----- steps

  predicate Enabled(s: State, a: Action) {
    match a
    case CreateRoom(p, _) => p !in s.tasks
    case FilePending(token, _) => token !in s.filed
    case BeginAccept(p, _) => p !in s.tasks
    case BeginRemove(p, _, _) => p !in s.tasks
    case BeginClear(p, _) => p !in s.tasks
    case Read(p) => p in s.tasks && (s.tasks[p].Adding? || s.tasks[p].Removing? || s.tasks[p].Clearing?)
    case Write(p) => p in s.tasks && s.tasks[p].WriteBack?
    case ReadPending(p) => p in s.tasks && s.tasks[p].Consuming?
    case Rename(p) => p in s.tasks && s.tasks[p].Staging?
    case StartDaemon(p) => p in s.tasks && s.tasks[p].Accepted?
    case Stop(p) => p in s.tasks
    case Prune(_) => true
  }

  function Goto(s: State, p: Proc, task: Option<Task>): (s': State) {
    s.(tasks := if task.Some? then s.tasks[p := task.value] else s.tasks - {p})
  }

  function NextAfterRead(files: map<Pid, File>, task: Task): (next: Option<Task>)
    requires task.Adding? || task.Removing? || task.Clearing?
  {
    var topics := Edit(FileOf(files, task.pid), task);
    if topics.None? then None else Some(WriteBack(task.pid, topics.value))
  }

  function NextAfterPending(pending: map<Token, Pending>, token: Token): (next: Option<Task>) {
    if token in pending then Some(Staging(token, pending[token])) else None
  }

  /** The rename is the gate: it succeeds only while the pending file is there. */
  function ApplyRename(s: State, p: Proc, token: Token, to: Pending): (s': State) {
    if token in s.pending
    then Goto(s, p, Some(Accepted(to))).(pending := s.pending - {token}, consents := s.consents + [Consumed(token, to)])
    else Goto(s, p, None)
  }

  function Apply(s: State, a: Action): (s': State)
    requires Enabled(s, a)
  {
    match a
    case CreateRoom(p, to) => Goto(s, p, Some(Adding(to.pid, to.topic))).(consents := s.consents + [Created(to)])
    case FilePending(token, to) => s.(pending := s.pending[token := to], filed := s.filed[token := to])
    case BeginAccept(p, token) => Goto(s, p, Some(Consuming(token)))
    case BeginRemove(p, pid, topic) => Goto(s, p, Some(Removing(pid, topic)))
    case BeginClear(p, pid) => Goto(s, p, Some(Clearing(pid)))
    case Read(p) => Goto(s, p, NextAfterRead(s.files, s.tasks[p]))
    case Write(p) => Goto(s, p, None).(files := s.files[s.tasks[p].pid := Rooms(s.tasks[p].topics)])
    case ReadPending(p) => Goto(s, p, NextAfterPending(s.pending, s.tasks[p].token))
    case Rename(p) => ApplyRename(s, p, s.tasks[p].token, s.tasks[p].to)
    case StartDaemon(p) => Goto(s, p, Some(Adding(s.tasks[p].to.pid, s.tasks[p].to.topic)))
    case Stop(p) => Goto(s, p, None)
    case Prune(pid) => s.(files := s.files - {pid})
  }

  predicate Runs(s: State, run: seq<Action>)
    decreases |run|
  {
    run == [] || (Enabled(s, run[0]) && Runs(Apply(s, run[0]), run[1..]))
  }

  function Exec(s: State, run: seq<Action>): (t: State)
    requires Runs(s, run)
    decreases |run|
  {
    if run == [] then s else Exec(Apply(s, run[0]), run[1..])
  }

  /** Nobody has joined anything; some rooms files may be unreadable. */
  predicate Init(s: State) {
    && s.pending == map[] && s.tasks == map[] && s.filed == map[] && s.consents == []
    && forall pid :: pid in s.files ==> !s.files[pid].Rooms?
  }

  // ----- invariant

  predicate Authorised(consents: seq<Consent>, to: Pending) {
    exists i :: 0 <= i < |consents| && consents[i].to == to
  }

  predicate AllAuthorised(consents: seq<Consent>, pid: Pid, topics: seq<Topic>) {
    forall k :: 0 <= k < |topics| ==> Authorised(consents, Pending(pid, topics[k]))
  }

  predicate Distinct(topics: seq<Topic>) {
    forall i, j :: 0 <= i < j < |topics| ==> topics[i] != topics[j]
  }

  /** The contents of a rooms file, written or about to be. */
  predicate TopicsOk(consents: seq<Consent>, pid: Pid, topics: seq<Topic>) {
    AllAuthorised(consents, pid, topics) && Distinct(topics)
  }

  predicate FilesOk(consents: seq<Consent>, files: map<Pid, File>) {
    forall pid :: pid in files && files[pid].Rooms? ==> TopicsOk(consents, pid, files[pid].topics)
  }

  predicate TaskOk(consents: seq<Consent>, filed: map<Token, Pending>, task: Task) {
    match task
    case Adding(pid, topic) => Authorised(consents, Pending(pid, topic))
    case WriteBack(pid, topics) => TopicsOk(consents, pid, topics)
    case Staging(token, to) => token in filed && filed[token] == to
    case Accepted(to) => Authorised(consents, to)
    case _ => true
  }

  predicate TasksOk(consents: seq<Consent>, filed: map<Token, Pending>, tasks: map<Proc, Task>) {
    forall p :: p in tasks ==> TaskOk(consents, filed, tasks[p])
  }

  predicate NotConsumed(consents: seq<Consent>, token: Token) {
    forall i :: 0 <= i < |consents| && consents[i].Consumed? ==> consents[i].token != token
  }

  predicate PendingOk(consents: seq<Consent>, filed: map<Token, Pending>, pending: map<Token, Pending>) {
    forall token :: token in pending ==>
      token in filed && filed[token] == pending[token] && NotConsumed(consents, token)
  }

  /** A token is consumed at most once, and for what it was filed for. */
  predicate ConsentsOk(consents: seq<Consent>, filed: map<Token, Pending>) {
    && (forall i :: 0 <= i < |consents| && consents[i].Consumed? ==>
          consents[i].token in filed && consents[i].to == filed[consents[i].token])
    && (forall i, j :: 0 <= i < j < |consents| && consents[i].Consumed? && consents[j].Consumed? ==>
          consents[i].token != consents[j].token)
  }

  predicate Inv(s: State) {
    && FilesOk(s.consents, s.files) && TasksOk(s.consents, s.filed, s.tasks)
    && PendingOk(s.consents, s.filed, s.pending) && ConsentsOk(s.consents, s.filed)
  }

  lemma AuthorisedGrows(consents: seq<Consent>, c: Consent)
    ensures forall to :: Authorised(consents, to) ==> Authorised(consents + [c], to)
    ensures Authorised(consents + [c], c.to)
  {
    var more := consents + [c];
    assert more[|consents|].to == c.to;
    forall to | Authorised(consents, to)
      ensures Authorised(more, to)
    {
      var i :| 0 <= i < |consents| && consents[i].to == to;
      assert more[i].to == to;
    }
  }

  /** A new consent disturbs no file and no task. */
  lemma ConsentKeeps(s: State, c: Consent)
    requires Inv(s)
    ensures FilesOk(s.consents + [c], s.files) && TasksOk(s.consents + [c], s.filed, s.tasks)
  {
    AuthorisedGrows(s.consents, c);
  }

  lemma {:induction false} WithoutOk(topics: seq<Topic>, topic: Topic)
    ensures forall t :: t in Without(topics, topic) <==> t in topics && t != topic
    ensures Distinct(topics) ==> Distinct(Without(topics, topic))
    ensures |Without(topics, topic)| == |topics| <==> topic !in topics
    ensures |Without(topics, topic)| <= |topics|
    decreases |topics|
  {
    if topics != [] {
      var n := |topics| - 1;
      WithoutOk(topics[..n], topic);
      assert topics == topics[..n] + [topics[n]];
      assert Distinct(topics) ==> topics[n] !in topics[..n];
    }
  }

  /** Taking a topic out of two lists one after the other, or of one topic, says what it does to all: the others
      stay in their order. */
  lemma {:induction false} WithoutKeepsOrder(a: seq<Topic>, b: seq<Topic>, x: Topic, topic: Topic)
    ensures Without(a + b, topic) == Without(a, topic) + Without(b, topic)
    ensures Without([x], topic) == if x == topic then [] else [x]
    decreases |b|
  {
    assert [x][..0] == [];
    if b == [] {
      assert a + b == a;
    } else {
      var n := |b| - 1;
      assert (a + b)[..|a| + n] == a + b[..n];
      WithoutKeepsOrder(a, b[..n], x, topic);
    }
  }

  /** An added topic comes last, the others stay as they are; a file that cannot be read counts as an empty one. */
  lemma AddedComesLast(f: File, topic: Topic)
    ensures topic in WithTopic(f, topic)
    ensures f.Rooms? ==> f.topics <= WithTopic(f, topic)
    ensures f.Rooms? && topic !in f.topics ==>
            |WithTopic(f, topic)| == |f.topics| + 1 && WithTopic(f, topic)[|f.topics|] == topic
    ensures f.Rooms? && topic in f.topics ==> WithTopic(f, topic) == f.topics
    ensures !f.Rooms? ==> WithTopic(f, topic) == [topic]
  {
  }

  lemma AllIn(consents: seq<Consent>, pid: Pid, topics: seq<Topic>, kept: seq<Topic>)
    requires AllAuthorised(consents, pid, topics) && forall t :: t in kept ==> t in topics
    ensures AllAuthorised(consents, pid, kept)
  {
    forall k | 0 <= k < |kept|
      ensures Authorised(consents, Pending(pid, kept[k]))
    {
      assert kept[k] in topics;
    }
  }

  lemma EditOk(consents: seq<Consent>, f: File, task: Task)
    requires task.Adding? || task.Removing? || task.Clearing?
    requires f.Rooms? ==> TopicsOk(consents, task.pid, f.topics)
    requires task.Adding? ==> Authorised(consents, Pending(task.pid, task.topic))
    ensures Edit(f, task).Some? ==> TopicsOk(consents, task.pid, Edit(f, task).value)
  {
    if task.Removing? && f.Rooms? {
      WithoutOk(f.topics, task.topic);
      AllIn(consents, task.pid, f.topics, Without(f.topics, task.topic));
    }
  }

  lemma GotoKeeps(s: State, p: Proc, task: Option<Task>)
    requires Inv(s) && (task.Some? ==> TaskOk(s.consents, s.filed, task.value))
    ensures Inv(Goto(s, p, task))
  {
  }

  lemma CreateKeeps(s: State, p: Proc, to: Pending)
    requires Inv(s) && Enabled(s, CreateRoom(p, to))
    ensures Inv(Apply(s, CreateRoom(p, to)))
  {
    var c := Created(to);
    ConsentKeeps(s, c);
    AuthorisedGrows(s.consents, c);
    var s1 := s.(consents := s.consents + [c]);
    assert PendingOk(s1.consents, s1.filed, s1.pending);
    GotoKeeps(s1, p, Some(Adding(to.pid, to.topic)));
  }

  lemma FilePendingKeeps(s: State, token: Token, to: Pending)
    requires Inv(s) && token !in s.filed
    ensures Inv(Apply(s, FilePending(token, to)))
  {
  }

  lemma RenameKeeps(s: State, p: Proc)
    requires Inv(s) && Enabled(s, Rename(p))
    ensures Inv(Apply(s, Rename(p)))
  {
    var token, to := s.tasks[p].token, s.tasks[p].to;
    assert TaskOk(s.consents, s.filed, s.tasks[p]);
    if token in s.pending {
      var c := Consumed(token, to);
      ConsentKeeps(s, c);
      AuthorisedGrows(s.consents, c);
      var s1 := s.(consents := s.consents + [c], pending := s.pending - {token});
      assert ConsentsOk(s1.consents, s1.filed);
      GotoKeeps(s1, p, Some(Accepted(to)));
    }
  }

  lemma InvStep(s: State, a: Action)
    requires Inv(s) && Enabled(s, a)
    ensures Inv(Apply(s, a))
  {
    match a {
      case CreateRoom(p, to) => CreateKeeps(s, p, to);
      case FilePending(token, to) => FilePendingKeeps(s, token, to);
      case Read(p) => {
        assert TaskOk(s.consents, s.filed, s.tasks[p]);
        EditOk(s.consents, FileOf(s.files, s.tasks[p].pid), s.tasks[p]);
        GotoKeeps(s, p, NextAfterRead(s.files, s.tasks[p]));
      }
      case Write(p) => {
        assert TaskOk(s.consents, s.filed, s.tasks[p]);
        GotoKeeps(s, p, None);
      }
      case ReadPending(p) => GotoKeeps(s, p, NextAfterPending(s.pending, s.tasks[p].token));
      case Rename(p) => RenameKeeps(s, p);
      case StartDaemon(p) => {
        assert TaskOk(s.consents, s.filed, s.tasks[p]);
        GotoKeeps(s, p, Some(Adding(s.tasks[p].to.pid, s.tasks[p].to.topic)));
      }
      case _ =>
    }
  }

  lemma {:induction false} InvRun(s: State, run: seq<Action>)
    requires Inv(s) && Runs(s, run)
    ensures Inv(Exec(s, run))
    decreases |run|
  {
    if run != [] {
      InvStep(s, run[0]);
      InvRun(Apply(s, run[0]), run[1..]);
    }
  }

  // ----- main results

  /** In every reachable state each token has been consumed at most once, and for the Claude and the topic it
      was filed for. */
  lemma ConsumedAtMostOnce(s: State, run: seq<Action>, i: nat, j: nat)
    requires Init(s) && Runs(s, run)
    ensures var t := Exec(s, run);
      && (i < |t.consents| && t.consents[i].Consumed? ==>
            t.consents[i].token in t.filed && t.consents[i].to == t.filed[t.consents[i].token])
      && (i < |t.consents| && j < |t.consents| && t.consents[i].Consumed? && t.consents[j].Consumed? && i != j ==>
            t.consents[i].token != t.consents[j].token)
  {
    InvRun(s, run);
  }

  /** However updates interleave or get lost, every topic in the rooms file of a Claude has an earlier
      consent for just that Claude and topic; and no topic is listed twice. */
  lemma EveryTopicHasConsent(s: State, run: seq<Action>, pid: Pid, topic: Topic)
    requires Init(s) && Runs(s, run)
    ensures var f := FileOf(Exec(s, run).files, pid);
      f.Rooms? ==> Distinct(f.topics) && (topic in f.topics ==> Authorised(Exec(s, run).consents, Pending(pid, topic)))
  {
    InvRun(s, run);
  }

  // ----- what is listed after any run

  function At(s: State, run: seq<Action>, k: nat): (t: State)
    requires Runs(s, run) && k <= |run|
    decreases k
  {
    if k == 0 then s else At(Apply(s, run[0]), run[1..], k - 1)
  }

  lemma {:induction false} AtStep(s: State, run: seq<Action>, k: nat, next: nat)
    requires Runs(s, run) && k < |run| && next == k + 1
    ensures Enabled(At(s, run, k), run[k]) && At(s, run, next) == Apply(At(s, run, k), run[k])
    decreases k
  {
    if k == 0 {
      assert At(Apply(s, run[0]), run[1..], 0) == Apply(s, run[0]);
    } else {
      AtStep(Apply(s, run[0]), run[1..], k - 1, k);
    }
  }

  lemma {:induction false} AtEnd(s: State, run: seq<Action>, k: nat)
    requires Runs(s, run) && k == |run|
    ensures At(s, run, k) == Exec(s, run)
    decreases k
  {
    if k != 0 {
      AtEnd(Apply(s, run[0]), run[1..], k - 1);
    }
  }

  predicate Listed(s: State, pid: Pid, topic: Topic) {
    FileOf(s.files, pid).Rooms? && topic in FileOf(s.files, pid).topics
  }

  predicate IsEdit(task: Task) {
    task.Adding? || task.Removing? || task.Clearing?
  }

  /** Does this edit, made on what the file held in `s`, list the topic? */
  predicate Keeps(s: State, task: Task, topic: Topic)
    requires IsEdit(task)
  {
    match task
    case Adding(pid, added) => added == topic || Listed(s, pid, topic)
    case Removing(pid, removed) => removed != topic && Listed(s, pid, topic)
    case Clearing(_) => false
  }

  lemma EditListsIff(s: State, task: Task, topic: Topic)
    requires IsEdit(task) && Edit(FileOf(s.files, task.pid), task).Some?
    ensures topic in Edit(FileOf(s.files, task.pid), task).value <==> Keeps(s, task, topic)
  {
    var f := FileOf(s.files, task.pid);
    if task.Removing? && f.Rooms? {
      WithoutOk(f.topics, task.topic);
    }
  }

  /** The step before `k` at which process `p` last read a rooms file; -1 if there is none. */
  function LastRead(run: seq<Action>, k: nat, p: Proc): (r: int)
    requires k <= |run|
    ensures -1 <= r < k && (0 <= r ==> run[r] == Read(p))
  {
    if k == 0 then -1 else if run[k - 1] == Read(p) then k - 1 else LastRead(run, k - 1, p)
  }

  /** Process `p` holds the result of the edit that it read for in `s`. */
  predicate HoldsEdit(s: State, p: Proc, held: Task) {
    && p in s.tasks && IsEdit(s.tasks[p]) && held.WriteBack? && held.pid == s.tasks[p].pid
    && Edit(FileOf(s.files, held.pid), s.tasks[p]) == Some(held.topics)
  }

  /** Only a read leads a process to a write. */
  lemma WriteBackStep(s: State, a: Action, p: Proc)
    requires Enabled(s, a) && p in Apply(s, a).tasks && Apply(s, a).tasks[p].WriteBack?
    ensures if a == Read(p) then HoldsEdit(s, p, Apply(s, a).tasks[p])
            else p in s.tasks && s.tasks[p] == Apply(s, a).tasks[p]
  {
  }

  lemma {:induction false} WhatIsHeld(s: State, run: seq<Action>, k: nat, p: Proc)
    requires Init(s) && Runs(s, run) && k <= |run|
    requires p in At(s, run, k).tasks && At(s, run, k).tasks[p].WriteBack?
    ensures var r := LastRead(run, k, p);
      0 <= r && HoldsEdit(At(s, run, r), p, At(s, run, k).tasks[p])
    decreases k
  {
    if k > 0 {
      AtStep(s, run, k - 1, k);
      WriteBackStep(At(s, run, k - 1), run[k - 1], p);
      if run[k - 1] != Read(p) {
        WhatIsHeld(s, run, k - 1, p);
      }
    }
  }

  /** Step `k` writes the file of `pid`, as an edit of what its writer had read. */
  predicate Rewrites(s: State, run: seq<Action>, k: nat, pid: Pid)
    requires Runs(s, run) && k < |run|
  {
    && run[k].Write? && run[k].p in At(s, run, k).tasks
    && At(s, run, k).tasks[run[k].p].WriteBack? && At(s, run, k).tasks[run[k].p].pid == pid
  }

  /** The edit behind the write of step `k` keeps or adds the topic, judged by when its writer read. */
  predicate KeepsTopic(s: State, run: seq<Action>, k: nat, topic: Topic)
    requires Runs(s, run) && k < |run| && run[k].Write?
  {
    var r := LastRead(run, k, run[k].p);
    0 <= r && var was := At(s, run, r);
    run[k].p in was.tasks && IsEdit(was.tasks[run[k].p]) && Keeps(was, was.tasks[run[k].p], topic)
  }

  predicate WritesTopic(s: State, run: seq<Action>, k: nat, pid: Pid, topic: Topic)
    requires Runs(s, run) && k < |run|
  {
    Rewrites(s, run, k, pid) && KeepsTopic(s, run, k, topic)
  }

  predicate DropsTopic(s: State, run: seq<Action>, k: nat, pid: Pid, topic: Topic)
    requires Runs(s, run) && k < |run|
  {
    run[k] == Prune(pid) || (Rewrites(s, run, k, pid) && !KeepsTopic(s, run, k, topic))
  }

  lemma FileAfter(s: State, a: Action, pid: Pid)
    requires Enabled(s, a)
    ensures FileOf(Apply(s, a).files, pid) ==
            if a == Prune(pid) then Absent
            else if a.Write? && s.tasks[a.p].pid == pid then Rooms(s.tasks[a.p].topics)
            else FileOf(s.files, pid)
  {
  }

  /** In any run, with any number of processes, a step puts a topic in exactly if it is the write of an edit that
      adds it, or of an edit of other topics that was read while it was listed; and takes it out exactly if it
      prunes the file or is any other write to it. */
  lemma ListedAfterStepIff(s: State, run: seq<Action>, k: nat, pid: Pid, topic: Topic)
    requires Init(s) && Runs(s, run) && k < |run|
    ensures Listed(At(s, run, k + 1), pid, topic) <==>
            WritesTopic(s, run, k, pid, topic)
            || (Listed(At(s, run, k), pid, topic) && !DropsTopic(s, run, k, pid, topic))
  {
    var now := At(s, run, k);
    AtStep(s, run, k, k + 1);
    FileAfter(now, run[k], pid);
    if run[k].Write? {
      var p := run[k].p;
      var r := LastRead(run, k, p);
      WhatIsHeld(s, run, k, p);
      EditListsIff(At(s, run, r), At(s, run, r).tasks[p], topic);
    }
  }

  predicate LastsUntil(s: State, run: seq<Action>, k: nat, pid: Pid, topic: Topic, end: nat)
    requires Runs(s, run) && end <= |run|
  {
    && k < end && WritesTopic(s, run, k, pid, topic)
    && forall j :: k < j < end ==> !DropsTopic(s, run, j, pid, topic)
  }

  lemma {:induction false} ListedAtIff(s: State, run: seq<Action>, pid: Pid, topic: Topic, end: nat)
    requires Init(s) && Runs(s, run) && end <= |run|
    ensures Listed(At(s, run, end), pid, topic) <==> exists k :: LastsUntil(s, run, k, pid, topic, end)
    decreases end
  {
    if end > 0 {
      var m := end - 1;
      ListedAtIff(s, run, pid, topic, m);
      ListedAfterStepIff(s, run, m, pid, topic);
      if WritesTopic(s, run, m, pid, topic) {
        assert LastsUntil(s, run, m, pid, topic, end);
      } else {
        LastsOneMore(s, run, pid, topic, m, end);
      }
    }
  }

  lemma LastsOneMore(s: State, run: seq<Action>, pid: Pid, topic: Topic, m: nat, end: nat)
    requires Runs(s, run) && end <= |run| && end == m + 1 && !WritesTopic(s, run, m, pid, topic)
    ensures (exists k :: LastsUntil(s, run, k, pid, topic, end)) <==>
            (exists k :: LastsUntil(s, run, k, pid, topic, m)) && !DropsTopic(s, run, m, pid, topic)
  {
    if k :| LastsUntil(s, run, k, pid, topic, m) {
      if !DropsTopic(s, run, m, pid, topic) {
        assert LastsUntil(s, run, k, pid, topic, end);
      }
    }
    if k :| LastsUntil(s, run, k, pid, topic, end) {
      assert LastsUntil(s, run, k, pid, topic, m);
    }
  }

  /** After any run a topic is listed exactly if some step wrote it and no later one dropped it.  So an added topic
      is lost to every writer that had read before it was written; and a removed one comes back with a writer of
      other topics that had read before it was removed. */
  lemma ListedAtEndIff(s: State, run: seq<Action>, pid: Pid, topic: Topic)
    requires Init(s) && Runs(s, run)
    ensures Listed(Exec(s, run), pid, topic) <==> exists k :: LastsUntil(s, run, k, pid, topic, |run|)
  {
    ListedAtIff(s, run, pid, topic, |run|);
    AtEnd(s, run, |run|);
  }

  // ----- lost updates

  /** Two processes about to add different new topics for the same Claude. */
  predicate TwoAdds(s: State, p: Proc, q: Proc, pid: Pid, a: Topic, b: Topic) {
    && p != q && p in s.tasks && q in s.tasks && a != b
    && s.tasks[p] == Adding(pid, a) && s.tasks[q] == Adding(pid, b)
    && (FileOf(s.files, pid).Rooms? ==> a !in FileOf(s.files, pid).topics && b !in FileOf(s.files, pid).topics)
  }

  /** The four halves in the order in which the processes take turns. */
  function Halves(order: seq<Proc>): (run: seq<Action>)
    requires |order| == 4
  {
    [Half(order, 0), Half(order, 1), Half(order, 2), Half(order, 3)]
  }

  function Half(order: seq<Proc>, k: nat): (a: Action)
    requires k < |order|
  {
    if order[k] in order[..k] then Write(order[k]) else Read(order[k])
  }

  lemma FourSteps(s: State, a0: Action, a1: Action, a2: Action, a3: Action)
    requires Enabled(s, a0)
    requires Enabled(Apply(s, a0), a1)
    requires Enabled(Apply(Apply(s, a0), a1), a2)
    requires Enabled(Apply(Apply(Apply(s, a0), a1), a2), a3)
    ensures Runs(s, [a0, a1, a2, a3])
    ensures Exec(s, [a0, a1, a2, a3]) == Apply(Apply(Apply(Apply(s, a0), a1), a2), a3)
  {
    Chain(Apply(Apply(Apply(s, a0), a1), a2), a3, []);
    Chain(Apply(Apply(s, a0), a1), a2, [a3]);
    Chain(Apply(s, a0), a1, [a2, a3]);
    Chain(s, a0, [a1, a2, a3]);
    assert [a3] + [] == [a3] && [a2] + [a3] == [a2, a3];
    assert [a1] + [a2, a3] == [a1, a2, a3] && [a0] + [a1, a2, a3] == [a0, a1, a2, a3];
  }

  lemma Chain(s: State, a: Action, run: seq<Action>)
    requires Enabled(s, a) && Runs(Apply(s, a), run)
    ensures Runs(s, [a] + run) && Exec(s, [a] + run) == Exec(Apply(s, a), run)
  {
    assert ([a] + run)[0] == a && ([a] + run)[1..] == run;
  }

  lemma OneAfterTheOther(s: State, p: Proc, q: Proc, pid: Pid, a: Topic, b: Topic)
    requires TwoAdds(s, p, q, pid, a, b)
    ensures var run := [Read(p), Write(p), Read(q), Write(q)];
      && Runs(s, run) && FileOf(Exec(s, run).files, pid).Rooms?
      && a in FileOf(Exec(s, run).files, pid).topics && b in FileOf(Exec(s, run).files, pid).topics
  {
    FourSteps(s, Read(p), Write(p), Read(q), Write(q));
  }

  lemma Overlapping(s: State, p: Proc, q: Proc, pid: Pid, a: Topic, b: Topic)
    requires TwoAdds(s, p, q, pid, a, b)
    ensures var run := [Read(p), Read(q), Write(p), Write(q)];
      Runs(s, run) && FileOf(Exec(s, run).files, pid) == Rooms(WithTopic(FileOf(s.files, pid), b))
    ensures var run := [Read(p), Read(q), Write(q), Write(p)];
      Runs(s, run) && FileOf(Exec(s, run).files, pid) == Rooms(WithTopic(FileOf(s.files, pid), a))
  {
    FourSteps(s, Read(p), Read(q), Write(p), Write(q));
    FourSteps(s, Read(p), Read(q), Write(q), Write(p));
  }

  predicate BothListed(f: File, a: Topic, b: Topic) {
    f.Rooms? && a in f.topics && b in f.topics
  }

  lemma SurviveIfFirst(s: State, p: Proc, q: Proc, pid: Pid, a: Topic, b: Topic, order: seq<Proc>)
    requires TwoAdds(s, p, q, pid, a, b)
    requires order == [p, p, q, q] || order == [p, q, p, q] || order == [p, q, q, p]
    ensures Runs(s, Halves(order))
    ensures BothListed(FileOf(Exec(s, Halves(order)).files, pid), a, b) <==> order[0] == order[1]
  {
    HalvesInOrder(p, q);
    if order == [p, p, q, q] {
      OneAfterTheOther(s, p, q, pid, a, b);
    } else {
      Overlapping(s, p, q, pid, a, b);
    }
  }

  /** Of two concurrent additions both survive exactly if the first to read also writes before the other
      reads; otherwise the later write drops the other topic. */
  lemma BothSurviveIff(s: State, p: Proc, q: Proc, pid: Pid, a: Topic, b: Topic, order: seq<Proc>)
    requires TwoAdds(s, p, q, pid, a, b)
    requires order in [[p, p, q, q], [q, q, p, p], [p, q, p, q], [p, q, q, p], [q, p, q, p], [q, p, p, q]]
    ensures Runs(s, Halves(order))
    ensures BothListed(FileOf(Exec(s, Halves(order)).files, pid), a, b) <==> order[0] == order[1]
  {
    if order[0] == p {
      SurviveIfFirst(s, p, q, pid, a, b, order);
    } else {
      SurviveIfFirst(s, q, p, pid, b, a, order);
    }
  }

  lemma HalvesInOrder(p: Proc, q: Proc)
    requires p != q
    ensures Halves([p, p, q, q]) == [Read(p), Write(p), Read(q), Write(q)]
    ensures Halves([p, q, p, q]) == [Read(p), Read(q), Write(p), Write(q)]
    ensures Halves([p, q, q, p]) == [Read(p), Read(q), Write(q), Write(p)]
  {
    forall order | order in [[p, p, q, q], [p, q, p, q], [p, q, q, p]]
      ensures order[..0] == [] && order[..1] == [order[0]] && order[..2] == [order[0], order[1]]
      ensures order[..3] == [order[0], order[1], order[2]]
    {
    }
  }

  // ----- the operations

  lemma {:induction false} ExecSnoc(s: State, run: seq<Action>, a: Action)
    requires Runs(s, run) && Enabled(Exec(s, run), a)
    ensures Runs(s, run + [a]) && Exec(s, run + [a]) == Apply(Exec(s, run), a)
    decreases |run|
  {
    if run == [] {
      assert [a][1..] == [];
    } else {
      assert (run + [a])[0] == run[0] && (run + [a])[1..] == run[1..] + [a];
      ExecSnoc(Apply(s, run[0]), run[1..], a);
    }
  }

  predicate By(a: Action, p: Proc) {
    !a.FilePending? && !a.Prune? && a.p == p
  }

  /** Everyone but process `p` takes the given steps, each if it can. */
  function Played(s: State, p: Proc, steps: seq<Action>): (t: State)
    decreases |steps|
  {
    if steps == [] then s
    else
      var n := |steps| - 1;
      var t := Played(s, p, steps[..n]);
      if !By(steps[n], p) && Enabled(t, steps[n]) then Apply(t, steps[n]) else t
  }

  lemma PlayedNext(s: State, p: Proc, steps: seq<Action>, i: nat, t: State)
    requires i < |steps| && t == Played(s, p, steps[..i])
    ensures Played(s, p, steps[..i + 1]) ==
            if !By(steps[i], p) && Enabled(t, steps[i]) then Apply(t, steps[i]) else t
  {
    assert steps[..i + 1][..i] == steps[..i];
  }

  /** A token that was filed stays so; and one that is gone stays gone. */
  lemma {:induction false} FiledStays(s: State, p: Proc, steps: seq<Action>, token: Token)
    requires token in s.filed
    ensures token in Played(s, p, steps).filed
    ensures token !in s.pending ==> token !in Played(s, p, steps).pending
    decreases |steps|
  {
    if steps != [] {
      var n := |steps| - 1;
      FiledStays(s, p, steps[..n], token);
      if Enabled(Played(s, p, steps[..n]), steps[n]) {
        FiledStep(Played(s, p, steps[..n]), steps[n], token);
      }
    }
  }

  lemma FiledStep(s: State, a: Action, token: Token)
    requires token in s.filed && Enabled(s, a)
    ensures token in Apply(s, a).filed && (token !in s.pending ==> token !in Apply(s, a).pending)
  {
  }

  lemma PendingIsFiled(start: State, past: seq<Action>, s: State, token: Token)
    requires Reached(start, past, s) && token in s.pending
    ensures token in s.filed
  {
    InvRun(start, past);
  }

  lemma GotoTwice(s: State, p: Proc, a: Task, b: Option<Task>)
    ensures Goto(Goto(s, p, Some(a)), p, b) == if b.None? && p !in s.tasks then s else Goto(s, p, b)
  {
    assert s.tasks[p := a] - {p} == s.tasks - {p};
    assert p !in s.tasks ==> s.tasks - {p} == s.tasks;
  }

  /** The contents of the rooms file of `pid` after `p`, holding them, writes them back, others having acted. */
  function WrittenBack(s: State, p: Proc, meanwhile: seq<Action>, pid: Pid, topics: seq<Topic>): (t: State) {
    var held := Played(Goto(s, p, Some(WriteBack(pid, topics))), p, meanwhile);
    Goto(held, p, None).(files := held.files[pid := Rooms(topics)])
  }

  /** The state in which `p` has read the pending join and the others have acted before its rename. */
  function BeforeRename(s: State, p: Proc, token: Token, meanwhile: seq<Action>): (t: State)
    requires token in s.pending
  {
    Played(Goto(s, p, Some(Staging(token, s.pending[token]))), p, meanwhile)
  }

  /** Nobody else took the pending join first. */
  predicate Wins(s: State, p: Proc, token: Token, meanwhile: seq<Action>) {
    token in s.pending && token in BeforeRename(s, p, token, meanwhile).pending
  }

  /** The state after the rename that takes the join: `p` goes on with it, or stops. */
  function Taken(s: State, p: Proc, token: Token, meanwhile: seq<Action>, next: Option<Task>): (t: State)
    requires token in s.pending
  {
    var before := BeforeRename(s, p, token, meanwhile);
    Goto(before, p, next).(pending := before.pending - {token},
                           consents := before.consents + [Consumed(token, s.pending[token])])
  }

  ghost predicate Reached(start: State, past: seq<Action>, s: State) {
    Init(start) && Runs(start, past) && s == Exec(start, past)
  }

  /** The files under `~/.cc-connect`, with the operations one process runs on them while others go on. */
  class Sessions {
    var s: State
    ghost var start: State
    ghost var past: seq<Action>

    ghost predicate Valid()
      reads this
    {
      Reached(start, past, s)
    }

    ghost predicate Kept(start0: State, past0: seq<Action>)
      reads this
    {
      Valid() && start == start0 && past0 <= past
    }

    constructor (initial: State)
      requires Init(initial)
      ensures Valid() && s == initial
    {
      s, start, past := initial, initial, [];
    }

    method Do(a: Action)
      requires Valid() && Enabled(s, a)
      modifies this
      ensures Kept(old(start), old(past)) && s == Apply(old(s), a)
    {
      ExecSnoc(start, past, a);
      s := Apply(s, a);
      past := past + [a];
    }

    /** Everyone but process `p` takes the given steps, as far as they can. */
    method Others(p: Proc, steps: seq<Action>)
      requires Valid() && p in s.tasks
      modifies this
      ensures Kept(old(start), old(past)) && p in s.tasks && s.tasks[p] == old(s).tasks[p]
      ensures old(s).consents <= s.consents && s == Played(old(s), p, steps)
    {
      var i := 0;
      while i < |steps|
        invariant 0 <= i <= |steps|
        invariant Kept(old(start), old(past)) && p in s.tasks && s.tasks[p] == old(s).tasks[p]
        invariant old(s).consents <= s.consents && s == Played(old(s), p, steps[..i])
      {
        PlayedNext(old(s), p, steps, i, s);
        if !By(steps[i], p) && Enabled(s, steps[i]) {
          Do(steps[i]);
        }
        i := i + 1;
      }
      assert steps[..|steps|] == steps;
    }

    /** The read half, then the write half if there is anything to write. */
    method ReadThenWrite(p: Proc, meanwhile: seq<Action>)
      requires Valid() && Enabled(s, Read(p))
      modifies this
      ensures Kept(old(start), old(past)) && p !in s.tasks && old(s).consents <= s.consents
      ensures var task := old(s).tasks[p];
        var topics := Edit(FileOf(old(s).files, task.pid), task);
        s == if topics.Some? then WrittenBack(old(s), p, meanwhile, task.pid, topics.value)
             else Goto(old(s), p, None)
    {
      Do(Read(p));
      if p in s.tasks {
        Others(p, meanwhile);
        Do(Write(p));
      }
    }

    method AddTopic(p: Proc, topic: Topic, meanwhile: seq<Action>)
      requires Valid() && p in s.tasks && s.tasks[p].Adding? && s.tasks[p].topic == topic
      modifies this
      ensures Kept(old(start), old(past)) && p !in s.tasks && old(s).consents <= s.consents
      ensures var pid := old(s).tasks[p].pid;
        && FileOf(s.files, pid) == Rooms(WithTopic(FileOf(old(s).files, pid), topic))
        && s == WrittenBack(old(s), p, meanwhile, pid, WithTopic(FileOf(old(s).files, pid), topic))
    {
      ReadThenWrite(p, meanwhile);
    }

    /** Others' topics stay; the file is left alone if it does not list the topic or cannot be read. */
    method RemoveTopic(p: Proc, pid: Pid, topic: Topic, meanwhile: seq<Action>)
      requires Valid() && p !in s.tasks
      modifies this
      ensures Kept(old(start), old(past)) && p !in s.tasks
      ensures var f := FileOf(old(s).files, pid);
        && (if f.Rooms? && topic in f.topics then FileOf(s.files, pid) == Rooms(Without(f.topics, topic))
            else s.files == old(s).files)
        && s == if f.Rooms? && topic in f.topics
                then WrittenBack(Goto(old(s), p, Some(Removing(pid, topic))), p, meanwhile, pid,
                                 Without(f.topics, topic))
                else old(s)
    {
      GotoTwice(s, p, Removing(pid, topic), None);
      Do(BeginRemove(p, pid, topic));
      if FileOf(s.files, pid).Rooms? {
        WithoutOk(FileOf(s.files, pid).topics, topic);
      }
      ReadThenWrite(p, meanwhile);
    }

    method RemoveAllTopics(p: Proc, pid: Pid, meanwhile: seq<Action>)
      requires Valid() && p !in s.tasks
      modifies this
      ensures Kept(old(start), old(past)) && p !in s.tasks
      ensures if FileOf(old(s).files, pid).Absent? then s.files == old(s).files else FileOf(s.files, pid) == Rooms([])
      ensures s == if FileOf(old(s).files, pid).Absent? then old(s)
                   else WrittenBack(Goto(old(s), p, Some(Clearing(pid))), p, meanwhile, pid, [])
    {
      GotoTwice(s, p, Clearing(pid), None);
      Do(BeginClear(p, pid));
      ReadThenWrite(p, meanwhile);
    }

    /** Read the pending join, then rename it away; only the rename counts. */
    method ConsumePendingJoin(p: Proc, token: Token, meanwhile: seq<Action>) returns (r: Option<Pending>)
      requires Valid() && p !in s.tasks
      modifies this
      ensures Kept(old(start), old(past)) && old(s).consents <= s.consents && token !in s.pending
      ensures if r.Some? then p in s.tasks && s.tasks[p] == Accepted(r.value)
                              && |s.consents| > |old(s).consents|
                              && s.consents[|s.consents| - 1] == Consumed(token, r.value)
              else p !in s.tasks
      ensures token in old(s).pending && meanwhile == [] ==> r == Some(old(s).pending[token])
      ensures r.Some? <==> Wins(old(s), p, token, meanwhile)
      ensures r.Some? ==> s == Taken(old(s), p, token, meanwhile, Some(Accepted(r.value))) && token in s.filed
      ensures r.None? ==>
        s == if token in old(s).pending then Goto(BeforeRename(old(s), p, token, meanwhile), p, None) else old(s)
    {
      var staged := StageJoin(p, token);
      if !staged {
        return None;
      }
      var to := s.tasks[p].to;
      FiledStays(s, p, meanwhile, token);
      Others(p, meanwhile);
      r := RenameJoin(p, token, to);
    }

    /** Read the pending join, if it is there. */
    method StageJoin(p: Proc, token: Token) returns (staged: bool)
      requires Valid() && p !in s.tasks
      modifies this
      ensures Kept(old(start), old(past)) && (staged <==> token in old(s).pending)
      ensures s == if staged then Goto(old(s), p, Some(Staging(token, old(s).pending[token]))) else old(s)
      ensures staged ==> p in s.tasks && token in s.filed
    {
      staged := token in s.pending;
      if staged {
        PendingIsFiled(start, past, s, token);
      }
      GotoTwice(s, p, Consuming(token), NextAfterPending(s.pending, token));
      Do(BeginAccept(p, token));
      Do(ReadPending(p));
    }

    /** The rename decides. */
    method RenameJoin(p: Proc, token: Token, to: Pending) returns (r: Option<Pending>)
      requires Valid() && p in s.tasks && s.tasks[p] == Staging(token, to)
      modifies this
      ensures Kept(old(start), old(past)) && r == if token in old(s).pending then Some(to) else None
      ensures s == if r.None? then Goto(old(s), p, None)
                   else Goto(old(s), p, Some(Accepted(to))).(pending := old(s).pending - {token},
                                                             consents := old(s).consents + [Consumed(token, to)])
    {
      r := if token in s.pending then Some(to) else None;
      Do(Rename(p));
    }

    /** `run_accept`: consume, make sure that the daemon runs, add the topic.  It succeeds exactly if it takes the
        pending join, the daemon runs and the rooms file can be updated. */
    method RunAccept(p: Proc, token: Token, daemonOk: bool, fileOk: bool, consuming: seq<Action>, adding: seq<Action>)
      returns (ok: bool)
      requires Valid() && p !in s.tasks
      modifies this
      ensures Kept(old(start), old(past)) && p !in s.tasks && old(s).consents <= s.consents && token !in s.pending
      ensures ok <==> daemonOk && fileOk && Wins(old(s), p, token, consuming)
      ensures daemonOk && fileOk && token in old(s).pending && consuming == [] ==> ok
      ensures ok ==> exists i :: |old(s).consents| <= i < |s.consents| && Binds(s, s.consents[i], token)
      ensures ok ==>
        var to := old(s).pending[token];
        var taken := Taken(old(s), p, token, consuming, Some(Adding(to.pid, to.topic)));
        s == WrittenBack(taken, p, adding, to.pid, WithTopic(FileOf(taken.files, to.pid), to.topic))
      ensures !ok && Wins(old(s), p, token, consuming) ==> s == Taken(old(s), p, token, consuming, None)
      ensures !ok && !Wins(old(s), p, token, consuming) ==>
        s == if token in old(s).pending then Goto(BeforeRename(old(s), p, token, consuming), p, None) else old(s)
    {
      var pj := ConsumePendingJoin(p, token, consuming);
      if pj.None? {
        return false;
      }
      ghost var before := BeforeRename(old(s), p, token, consuming);
      if !daemonOk || !fileOk {
        GotoTwice(before, p, Accepted(pj.value), None);
        Do(Stop(p));
        return false;
      }
      GotoTwice(before, p, Accepted(pj.value), Some(Adding(pj.value.pid, pj.value.topic)));
      BindTopic(p, token, pj.value, adding);
      ok := true;
    }

    /** The join is taken and the daemon runs: add the topic. */
    method BindTopic(p: Proc, token: Token, to: Pending, adding: seq<Action>)
      requires Valid() && p in s.tasks && s.tasks[p] == Accepted(to) && token !in s.pending && token in s.filed
      requires s.consents != [] && s.consents[|s.consents| - 1] == Consumed(token, to)
      modifies this
      ensures Kept(old(start), old(past)) && p !in s.tasks && old(s).consents <= s.consents && token !in s.pending
      ensures Binds(s, s.consents[|old(s).consents| - 1], token)
      ensures var begun := Goto(old(s), p, Some(Adding(to.pid, to.topic)));
        s == WrittenBack(begun, p, adding, to.pid, WithTopic(FileOf(begun.files, to.pid), to.topic))
    {
      ghost var given := s.consents;
      Do(StartDaemon(p));
      ghost var topics := WithTopic(FileOf(s.files, to.pid), to.topic);
      FiledStays(Goto(s, p, Some(WriteBack(to.pid, topics))), p, adding, token);
      AddTopic(p, to.topic, adding);
      assert s.consents[|given| - 1] == given[|given| - 1];
    }
  }

  /** The consent came from this token, and its topic now stands in the rooms file of its Claude. */
  predicate Binds(s: State, c: Consent, token: Token) {
    && c.Consumed? && c.token == token
    && FileOf(s.files, c.to.pid).Rooms? && c.to.topic in FileOf(s.files, c.to.pid).topics
  }
}
