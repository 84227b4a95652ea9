/** The invariant of CursorProtocol, and that every step keeps it. */
module CursorInvariant {
  import opened Wrappers
  import opened CursorProtocol

  // ----- the invariant

  ghost predicate BindingsOk(s: State) {
    && (s.bindings == [] <==> s.path.None?)
    && (s.bindings != [] ==> s.path == Some(s.bindings[|s.bindings| - 1].inode))
    && Stored(s.bindings, s.content)
    && (forall j, k :: 0 <= j < k < |s.bindings| ==> s.bindings[j].inode != s.bindings[k].inode)
  }

  /** A file keeps the contents it had when it was bound to the path. */
  ghost predicate Stored(bindings: seq<Binding>, content: map<Inode, string>) {
    forall k :: 0 <= k < |bindings| ==>
      bindings[k].inode in content && content[bindings[k].inode] == bindings[k].value
  }

  ghost predicate NotBound(bindings: seq<Binding>, i: Inode) {
    forall k :: 0 <= k < |bindings| ==> bindings[k].inode != i
  }

  /** No entry after `from`, up to `to`, is a rename by `p`. */
  ghost predicate NoneBy(bindings: seq<Binding>, p: Pid, from: nat, to: nat) {
    forall k :: from < k <= to && k < |bindings| ==> bindings[k].author != Some(p)
  }

  /** What a descriptor of the cursor file says about the list of bindings. */
  ghost predicate FdOk(bindings: seq<Binding>, w: Writer) {
    Fd(w.pc).Some? ==>
      && w.since < |bindings| && bindings[w.since].inode == w.pc.fd
      && w.begun + w.attempt <= w.since + 1
  }

  /** What the retry counter says about the number of renames so far. */
  ghost predicate CountOk(bindings: seq<Binding>, w: Writer) {
    && 1 <= w.attempt <= RACE_RETRY_LIMIT && w.begun <= Renames(bindings)
    && (w.pc.Opening? ==> w.begun + w.attempt <= Renames(bindings) + 1)
    && (w.pc.Mismatched? ==> w.since < Renames(bindings))
    && (w.pc.Comparing? ==> w.since <= w.pc.at < |bindings| && bindings[w.pc.at].inode == w.pc.seen)
  }

  ghost predicate TmpOk(bindings: seq<Binding>, content: map<Inode, string>, w: Writer) {
    Tmp(w.pc).Some? ==>
      && w.pc.tmp in content && NotBound(bindings, w.pc.tmp)
      && (w.pc.Renaming? ==> content[w.pc.tmp] == w.proposal)
  }

  ghost predicate LockOk(path: Option<Inode>, locks: map<Inode, Pid>, p: Pid, w: Writer) {
    && (Holds(w.pc) ==> w.pc.fd in locks && locks[w.pc.fd] == p)
    && (InWindow(w.pc) ==> path == Some(w.pc.fd))
  }

  /** Entry `at` is the one rename by `p` since `begun`, and carries the proposal. */
  ghost predicate OnlyRename(bindings: seq<Binding>, p: Pid, proposal: string, begun: nat, at: nat) {
    && begun < at < |bindings| && bindings[at].author == Some(p) && bindings[at].value == proposal
    && NoneBy(bindings, p, begun, at - 1) && NoneBy(bindings, p, at, |bindings|)
  }

  /** Who renamed since the call began. */
  ghost predicate AuthorOk(bindings: seq<Binding>, p: Pid, w: Writer) {
    match w.pc
    case Releasing(_, at) => OnlyRename(bindings, p, w.proposal, w.begun, at)
    case Done(Advanced(at)) => OnlyRename(bindings, p, w.proposal, w.begun, at)
    case Done(Exhausted(seen)) =>
      w.begun + RACE_RETRY_LIMIT <= seen < |bindings| && NoneBy(bindings, p, w.begun, |bindings|)
    case Crashed => true
    case _ => NoneBy(bindings, p, w.begun, |bindings|)
  }

  ghost predicate WriterOk(s: State, p: Pid, w: Writer) {
    && FdOk(s.bindings, w) && CountOk(s.bindings, w) && TmpOk(s.bindings, s.content, w)
    && LockOk(s.path, s.locks, p, w) && AuthorOk(s.bindings, p, w)
  }

  /** Temporary files are private. */
  ghost predicate TmpsDiffer(writers: map<Pid, Writer>) {
    forall p, q :: p in writers && q in writers && p != q && Tmp(writers[p].pc).Some? ==>
      Tmp(writers[p].pc) != Tmp(writers[q].pc)
  }

  /** Every lock is held by a caller that has the locked file open. */
  ghost predicate LocksOwned(locks: map<Inode, Pid>, writers: map<Pid, Writer>) {
    forall i :: i in locks ==>
      locks[i] in writers && Holds(writers[locks[i]].pc) && writers[locks[i]].pc.fd == i
  }

  ghost predicate WritersOk(s: State) {
    && (forall p :: p in s.writers ==> WriterOk(s, p, s.writers[p]))
    && TmpsDiffer(s.writers) && LocksOwned(s.locks, s.writers)
  }

  ghost predicate ReaderOk(bindings: seq<Binding>, d: Reader) {
    && d.begun <= Renames(bindings)
    && (d.Finding? ==> bindings != [])
    && (d.Absent? ==> d.begun == 0)
    && (d.Reading? ==>
          && d.begun <= d.at < |bindings| && bindings[d.at].inode == d.fd
          && d.got <= bindings[d.at].value)
    && (d.Read? ==> d.begun <= d.at < |bindings| && bindings[d.at].value == d.text)
  }

  ghost predicate ReadersOk(s: State) {
    forall r :: r in s.readers ==> ReaderOk(s.bindings, s.readers[r])
  }

  ghost predicate Inv(s: State) {
    BindingsOk(s) && WritersOk(s) && ReadersOk(s)
  }

  // ----- preservation

  lemma InvInit(s: State)
    requires Init(s)
    ensures Inv(s)
  {
  }

  /** A step of `p` that leaves the path and its history alone: only the record of `p`, its lock
      and its temporary file may change. */
  ghost predicate OwnStep(s: State, t: State, p: Pid) {
    && p in t.writers && t.path == s.path && t.bindings == s.bindings && t.readers == s.readers
    && t.writers == s.writers[p := t.writers[p]]
    && (forall i :: i in s.locks && s.locks[i] != p ==> i in t.locks && t.locks[i] == s.locks[i])
    && (forall i :: i in t.locks && t.locks[i] != p ==> i in s.locks && t.locks[i] == s.locks[i])
    && (forall i :: i in t.locks && t.locks[i] == p ==> Holds(t.writers[p].pc) && t.writers[p].pc.fd == i)
    && (forall i :: i in s.content && (p in s.writers ==> Tmp(s.writers[p].pc) != Some(i)) ==>
          i in t.content && t.content[i] == s.content[i])
    && (Tmp(t.writers[p].pc).Some? && t.writers[p].pc.tmp in s.content ==>
          p in s.writers && Tmp(t.writers[p].pc) == Tmp(s.writers[p].pc))
  }

  lemma OwnStepFiles(s: State, t: State, p: Pid)
    requires BindingsOk(s) && OwnStep(s, t, p)
    requires p in s.writers ==> TmpOk(s.bindings, s.content, s.writers[p])
    ensures BindingsOk(t)
  {
  }

  lemma OwnStepOthers(s: State, t: State, p: Pid, q: Pid)
    requires OwnStep(s, t, p) && q in s.writers && q != p && TmpsDiffer(s.writers)
    requires WriterOk(s, q, s.writers[q])
    ensures WriterOk(t, q, t.writers[q])
  {
    var w := s.writers[q];
    if Tmp(w.pc).Some? && p in s.writers {
      assert Tmp(w.pc) != Tmp(s.writers[p].pc);
    }
  }

  lemma OwnStepTmps(s: State, t: State, p: Pid)
    requires WritersOk(s) && OwnStep(s, t, p)
    ensures TmpsDiffer(t.writers)
  {
    forall q | q in s.writers && q != p
      ensures Tmp(t.writers[p].pc).Some? ==> Tmp(t.writers[p].pc) != Tmp(t.writers[q].pc)
    {
      assert TmpOk(s.bindings, s.content, s.writers[q]) by { assert WriterOk(s, q, s.writers[q]); }
    }
  }

  lemma OwnStepLocks(s: State, t: State, p: Pid)
    requires LocksOwned(s.locks, s.writers) && OwnStep(s, t, p)
    ensures LocksOwned(t.locks, t.writers)
  {
  }

  lemma OwnStepKeeps(s: State, t: State, p: Pid)
    requires Inv(s) && OwnStep(s, t, p) && WriterOk(t, p, t.writers[p])
    ensures Inv(t)
  {
    assert p in s.writers ==> WriterOk(s, p, s.writers[p]);
    OwnStepFiles(s, t, p);
    OwnStepTmps(s, t, p);
    OwnStepLocks(s, t, p);
    forall q | q in t.writers && q != p
      ensures WriterOk(t, q, t.writers[q])
    {
      OwnStepOthers(s, t, p, q);
    }
  }

  lemma BeginOwn(s: State, p: Pid, w: Writer)
    requires LocksOwned(s.locks, s.writers) && (p in s.writers ==> Fd(s.writers[p].pc).None?)
    requires w.pc.Opening?
    ensures OwnStep(s, s.(writers := s.writers[p := w]), p)
  {
  }

  lemma BeginKeeps(s: State, p: Pid, w: Writer)
    requires Inv(s) && (p in s.writers ==> Fd(s.writers[p].pc).None?)
    requires w.pc.Opening? && w.attempt == 1 && w.begun == Renames(s.bindings)
    ensures Inv(s.(writers := s.writers[p := w]))
  {
    BeginOwn(s, p, w);
    OwnStepKeeps(s, s.(writers := s.writers[p := w]), p);
  }

  lemma AcquireOwn(s: State, p: Pid)
    requires LocksOwned(s.locks, s.writers)
    requires p in s.writers && s.writers[p].pc.Locking? && s.writers[p].pc.fd !in s.locks
    ensures OwnStep(s, Acquire(s, p), p)
  {
  }

  lemma AcquireKeeps(s: State, p: Pid)
    requires Inv(s) && p in s.writers && s.writers[p].pc.Locking? && s.writers[p].pc.fd !in s.locks
    ensures Inv(Acquire(s, p))
  {
    assert WriterOk(s, p, s.writers[p]);
    AcquireOwn(s, p);
    OwnStepKeeps(s, Acquire(s, p), p);
  }

  lemma GotoOwn(s: State, p: Pid, pc: Pc)
    requires LocksOwned(s.locks, s.writers) && p in s.writers
    requires Fd(pc) == Fd(s.writers[p].pc) && Holds(pc) == Holds(s.writers[p].pc)
    requires Tmp(pc) == Tmp(s.writers[p].pc)
    ensures OwnStep(s, Goto(s, p, pc), p)
  {
  }

  /** Moving on without touching files or locks. */
  lemma GotoKeeps(s: State, p: Pid, pc: Pc)
    requires Inv(s) && p in s.writers && WriterOk(s, p, s.writers[p].(pc := pc))
    requires Fd(pc) == Fd(s.writers[p].pc) && Holds(pc) == Holds(s.writers[p].pc)
    requires Tmp(pc) == Tmp(s.writers[p].pc)
    ensures Inv(Goto(s, p, pc))
  {
    GotoOwn(s, p, pc);
    OwnStepKeeps(s, Goto(s, p, pc), p);
  }

  lemma LeaveOwn(s: State, p: Pid, w: Writer)
    requires LocksOwned(s.locks, s.writers) && p in s.writers && Fd(w.pc).None?
    requires LockOk(s.path, s.locks, p, s.writers[p])
    ensures OwnStep(s, Leave(s, p, w), p)
  {
    var pc, t := s.writers[p].pc, Leave(s, p, w);
    forall i | i in s.locks && s.locks[i] != p
      ensures i in t.locks && t.locks[i] == s.locks[i]
    {
      assert Holds(pc) ==> i != pc.fd;
    }
    forall i | i in t.locks
      ensures t.locks[i] != p
    {
      assert i in s.locks;
    }
  }

  lemma LeaveKeeps(s: State, p: Pid, w: Writer)
    requires Inv(s) && p in s.writers && Fd(w.pc).None?
    requires CountOk(s.bindings, w) && AuthorOk(s.bindings, p, w)
    ensures Inv(Leave(s, p, w))
  {
    assert LockOk(s.path, s.locks, p, s.writers[p]) by { assert WriterOk(s, p, s.writers[p]); }
    LeaveOwn(s, p, w);
    assert WriterOk(Leave(s, p, w), p, w);
    OwnStepKeeps(s, Leave(s, p, w), p);
  }

  lemma MakeTmpOwn(s: State, p: Pid, made: Inode)
    requires LocksOwned(s.locks, s.writers) && p in s.writers && s.writers[p].pc.Creating? && made !in s.content
    ensures OwnStep(s, MakeTmp(s, p, made), p)
  {
  }

  lemma MakeTmpKeeps(s: State, p: Pid, made: Inode)
    requires Inv(s) && p in s.writers && s.writers[p].pc.Creating? && made !in s.content
    ensures Inv(MakeTmp(s, p, made))
  {
    assert WriterOk(s, p, s.writers[p]);
    MakeTmpOwn(s, p, made);
    OwnStepKeeps(s, MakeTmp(s, p, made), p);
  }

  lemma WriteKeeps(s: State, p: Pid, text: string)
    requires Inv(s) && p in s.writers && s.writers[p].pc.Writing?
    ensures Inv(s.(content := s.content[s.writers[p].pc.tmp := text]))
  {
    assert WriterOk(s, p, s.writers[p]);
    var t := s.(content := s.content[s.writers[p].pc.tmp := text]);
    assert t.writers == s.writers[p := s.writers[p]];
    assert OwnStep(s, t, p);
    OwnStepKeeps(s, t, p);
  }

  lemma OpenBoundOwn(s: State, p: Pid, made: Inode)
    requires LocksOwned(s.locks, s.writers) && p in s.writers && s.writers[p].pc.Opening? && s.path.Some?
    ensures OwnStep(s, OpenPath(s, p, made), p)
  {
  }

  lemma OpenBoundOk(s: State, p: Pid, made: Inode)
    requires BindingsOk(s) && p in s.writers && s.writers[p].pc.Opening? && s.path.Some?
    requires WriterOk(s, p, s.writers[p])
    ensures WriterOk(OpenPath(s, p, made), p, OpenPath(s, p, made).writers[p])
  {
  }

  lemma OpenBoundKeeps(s: State, p: Pid, made: Inode)
    requires Inv(s) && p in s.writers && s.writers[p].pc.Opening? && s.path.Some?
    ensures Inv(OpenPath(s, p, made))
  {
    OpenBoundOwn(s, p, made);
    OpenBoundOk(s, p, made);
    OwnStepKeeps(s, OpenPath(s, p, made), p);
  }

  lemma SetReaderKeeps(s: State, r: Pid, d: Reader)
    requires Inv(s) && ReaderOk(s.bindings, d)
    ensures Inv(SetReader(s, r, d))
  {
    WritersUntouched(s, SetReader(s, r, d));
  }

  lemma WritersUntouched(s: State, t: State)
    requires BindingsOk(s) && WritersOk(s) && t == s.(readers := t.readers)
    ensures BindingsOk(t) && WritersOk(t)
  {
    forall q | q in t.writers
      ensures WriterOk(t, q, t.writers[q])
    {
      assert WriterOk(s, q, s.writers[q]);
    }
  }

  /** A step that binds the path to a new file, made by nobody's call but possibly that of `p`. */
  ghost predicate Publish(s: State, t: State, b: Binding) {
    && t.bindings == s.bindings + [b] && t.path == Some(b.inode)
    && b.inode in t.content && t.content[b.inode] == b.value && NotBound(s.bindings, b.inode)
    && (forall i :: i in s.content && i != b.inode ==> i in t.content && t.content[i] == s.content[i])
    && t.locks == s.locks && t.readers == s.readers
  }

  lemma PublishFiles(s: State, t: State, b: Binding)
    requires BindingsOk(s) && ReadersOk(s) && Publish(s, t, b)
    ensures BindingsOk(t) && ReadersOk(t)
  {
    forall r | r in t.readers
      ensures ReaderOk(t.bindings, t.readers[r])
    {
      assert ReaderOk(s.bindings, s.readers[r]);
    }
  }

  /** A call that is not in its window, and did not do the binding, does not notice. */
  lemma PublishOthers(s: State, t: State, b: Binding, q: Pid, w: Writer)
    requires Publish(s, t, b) && WriterOk(s, q, w)
    requires b.author != Some(q) && !InWindow(w.pc) && Tmp(w.pc) != Some(b.inode)
    ensures WriterOk(t, q, w)
  {
    assert FdOk(t.bindings, w) && CountOk(t.bindings, w);
    assert AuthorOk(t.bindings, q, w);
  }

  lemma OpenUnboundOwn(s: State, p: Pid, made: Inode)
    requires BindingsOk(s) && p in s.writers && WriterOk(s, p, s.writers[p])
    requires s.writers[p].pc.Opening? && s.path.None?
    ensures WriterOk(OpenPath(s, p, made), p, OpenPath(s, p, made).writers[p])
  {
  }

  lemma NobodyHasUnbound(s: State, q: Pid, w: Writer)
    requires BindingsOk(s) && WriterOk(s, q, w) && s.path.None?
    ensures Fd(w.pc).None?
  {
  }

  lemma OpenUnboundKeeps(s: State, p: Pid, made: Inode)
    requires Inv(s) && p in s.writers && s.writers[p].pc.Opening? && s.path.None? && made !in s.content
    ensures Inv(OpenPath(s, p, made))
  {
    var t := OpenPath(s, p, made);
    var b := Binding(made, None, "");
    assert Publish(s, t, b);
    PublishFiles(s, t, b);
    forall q | q in s.writers
      ensures q != p ==> WriterOk(t, q, t.writers[q]) && Fd(t.writers[q].pc).None?
    {
      assert WriterOk(s, q, s.writers[q]);
      NobodyHasUnbound(s, q, s.writers[q]);
      PublishOthers(s, t, b, q, s.writers[q]);
    }
    OpenUnboundOwn(s, p, made);
  }

  /** Only one caller at a time can be in its window: it holds the lock of the file that the path
      is bound to. */
  lemma OneInWindow(s: State, p: Pid, q: Pid)
    requires Inv(s) && p in s.writers && q in s.writers
    requires InWindow(s.writers[p].pc) && InWindow(s.writers[q].pc)
    ensures p == q
  {
    assert LockOk(s.path, s.locks, p, s.writers[p]) by { assert WriterOk(s, p, s.writers[p]); }
    assert LockOk(s.path, s.locks, q, s.writers[q]) by { assert WriterOk(s, q, s.writers[q]); }
  }

  lemma RenameOthers(s: State, p: Pid, b: Binding, q: Pid)
    requires Inv(s) && p in s.writers && s.writers[p].pc.Renaming? && q in s.writers && q != p
    requires b == Binding(s.writers[p].pc.tmp, Some(p), s.writers[p].proposal)
    requires Publish(s, RenameTmp(s, p), b)
    ensures WriterOk(RenameTmp(s, p), q, s.writers[q])
  {
    assert WriterOk(s, q, s.writers[q]);
    if InWindow(s.writers[q].pc) {
      OneInWindow(s, p, q);
    }
    PublishOthers(s, RenameTmp(s, p), b, q, s.writers[q]);
  }

  lemma RenameOwn(s: State, p: Pid)
    requires p in s.writers && s.writers[p].pc.Renaming? && WriterOk(s, p, s.writers[p])
    ensures WriterOk(RenameTmp(s, p), p, RenameTmp(s, p).writers[p])
  {
    var t, w := RenameTmp(s, p), s.writers[p];
    assert OnlyRename(t.bindings, p, w.proposal, w.begun, |s.bindings|);
  }

  /** Renaming publishes the temporary file and leaves the other records alone. */
  lemma RenamePublishes(s: State, p: Pid)
    requires p in s.writers && s.writers[p].pc.Renaming?
    requires TmpOk(s.bindings, s.content, s.writers[p])
    ensures Publish(s, RenameTmp(s, p), Binding(s.writers[p].pc.tmp, Some(p), s.writers[p].proposal))
  {
  }

  lemma RenameLists(s: State, p: Pid)
    requires WritersOk(s) && p in s.writers && s.writers[p].pc.Renaming?
    ensures TmpsDiffer(RenameTmp(s, p).writers) && LocksOwned(s.locks, RenameTmp(s, p).writers)
  {
  }

  lemma RenameKeeps(s: State, p: Pid)
    requires Inv(s) && p in s.writers && s.writers[p].pc.Renaming?
    ensures Inv(RenameTmp(s, p))
  {
    var t, w := RenameTmp(s, p), s.writers[p];
    var b := Binding(w.pc.tmp, Some(p), w.proposal);
    assert WriterOk(s, p, w);
    RenamePublishes(s, p);
    RenameOwn(s, p);
    PublishFiles(s, t, b);
    RenameLists(s, p);
    forall q | q in t.writers
      ensures WriterOk(t, q, t.writers[q])
    {
      if q != p {
        RenameOthers(s, p, b, q);
      }
    }
  }

  lemma InvStep(s: State, a: Action)
    requires Inv(s) && Enabled(s, a)
    ensures Inv(Apply(s, a))
  {
    match a
    case Begin(p, v) => BeginKeeps(s, p, Writer(Opening, 1, v, Renames(s.bindings), 0));
    case Open(p, made) => if s.path.Some? { OpenBoundKeeps(s, p, made); } else { OpenUnboundKeeps(s, p, made); }
    case Lock(p) => AcquireKeeps(s, p);
    case CreateTmp(p, made) => MakeTmpKeeps(s, p, made);
    case Write(p, upTo) => WriteKeeps(s, p, s.writers[p].proposal[..upTo]);
    case Rename(p) => RenameKeeps(s, p);
    case Stat(p) => StatStep(s, p);
    case Compare(p) => CompareStep(s, p);
    case Sync(p) => SyncStep(s, p);
    case BeginRead(r) => ReaderStep(s, a, r);
    case Exists(r) => ReaderStep(s, a, r);
    case OpenRead(r) => ReaderStep(s, a, r);
    case ReadChunk(r, _) => ReaderStep(s, a, r);
    case EndOfFile(r) => ReaderStep(s, a, r);
    case _ => LeaveStep(s, a, a.p);
  }

  lemma StatStep(s: State, p: Pid)
    requires Inv(s) && p in s.writers && s.writers[p].pc.Statting? && s.path.Some?
    ensures Inv(Goto(s, p, Comparing(s.writers[p].pc.fd, s.path.value, Renames(s.bindings))))
  {
    StatOk(s, p);
    GotoKeeps(s, p, Comparing(s.writers[p].pc.fd, s.path.value, Renames(s.bindings)));
  }

  lemma StatOk(s: State, p: Pid)
    requires BindingsOk(s) && p in s.writers && s.writers[p].pc.Statting? && s.path.Some?
    requires WriterOk(s, p, s.writers[p])
    ensures var w := s.writers[p]; WriterOk(s, p, w.(pc := Comparing(w.pc.fd, s.path.value, Renames(s.bindings))))
  {
  }

  lemma CompareOk(s: State, p: Pid)
    requires BindingsOk(s) && p in s.writers && s.writers[p].pc.Comparing?
    requires WriterOk(s, p, s.writers[p])
    ensures var w := s.writers[p]; WriterOk(s, p, w.(pc := Decide(w.pc)))
  {
  }

  lemma CompareStep(s: State, p: Pid)
    requires Inv(s) && p in s.writers && s.writers[p].pc.Comparing?
    ensures Inv(Goto(s, p, Decide(s.writers[p].pc)))
  {
    CompareOk(s, p);
    GotoKeeps(s, p, Decide(s.writers[p].pc));
  }

  lemma SyncStep(s: State, p: Pid)
    requires Inv(s) && p in s.writers && s.writers[p].pc.Writing? && Written(s, s.writers[p])
    ensures Inv(Goto(s, p, Renaming(s.writers[p].pc.fd, s.writers[p].pc.tmp)))
  {
    assert WriterOk(s, p, s.writers[p]);
    GotoKeeps(s, p, Renaming(s.writers[p].pc.fd, s.writers[p].pc.tmp));
  }

  lemma LeaveOk(s: State, a: Action, p: Pid)
    requires p in s.writers && WriterOk(s, p, s.writers[p]) && Enabled(s, a)
    requires a == Retry(p) || a == Release(p) || a == Fail(p) || a == Crash(p)
    ensures var w := Apply(s, a).writers[p];
      Fd(w.pc).None? && CountOk(s.bindings, w) && AuthorOk(s.bindings, p, w) && Apply(s, a) == Leave(s, p, w)
  {
  }

  lemma LeaveStep(s: State, a: Action, p: Pid)
    requires Inv(s) && Enabled(s, a) && (a == Retry(p) || a == Release(p) || a == Fail(p) || a == Crash(p))
    ensures Inv(Apply(s, a))
  {
    assert WriterOk(s, p, s.writers[p]);
    LeaveOk(s, a, p);
    LeaveKeeps(s, p, Apply(s, a).writers[p]);
  }

  lemma ReaderOkStep(s: State, a: Action, r: Pid)
    requires Enabled(s, a) && BindingsOk(s) && (r in s.readers ==> ReaderOk(s.bindings, s.readers[r]))
    requires (a.BeginRead? || a.Exists? || a.OpenRead? || a.ReadChunk? || a.EndOfFile?) && a.r == r
    ensures ReaderOk(s.bindings, Apply(s, a).readers[r]) && Apply(s, a) == SetReader(s, r, Apply(s, a).readers[r])
  {
  }

  lemma ReaderStep(s: State, a: Action, r: Pid)
    requires Inv(s) && Enabled(s, a)
    requires (a.BeginRead? || a.Exists? || a.OpenRead? || a.ReadChunk? || a.EndOfFile?) && a.r == r
    ensures Inv(Apply(s, a))
  {
    ReaderOkStep(s, a, r);
    SetReaderKeeps(s, r, Apply(s, a).readers[r]);
  }

  lemma {:induction false} InvRun(s: State, run: seq<Action>)
    requires Inv(s) && Runs(s, run)
    ensures Inv(Exec(s, run))
    decreases |run|
  {
    if run != [] {
      InvStep(s, run[0]);
      InvRun(Apply(s, run[0]), run[1..]);
    }
  }
}
