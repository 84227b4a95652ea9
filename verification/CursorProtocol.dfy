/** `cursor_io.rs` as a step machine: any number of `advance_cursor` and `read_cursor` callers
    interleave over one cursor path, the inodes it has been bound to, and one exclusive lock per
    inode.  A crash may come at any point and drops the lock of the caller that crashed. */
module CursorProtocol {
  import opened Wrappers

  type Pid = nat
  type Inode = nat

  const RACE_RETRY_LIMIT: nat := 5

  /** One file the path has been bound to.  Entry 0 of the list of bindings is the file that was
      there first (or that the first `open` created, empty); every later entry is a rename. */
  datatype Binding = Binding(inode: Inode, author: Option<Pid>, value: string)

  datatype Outcome =
    | Advanced(at: nat)      // the rename that made entry `at`
    | Exhausted(seen: nat)   // gave up; `seen` is the last entry then
    | Failed                 // an I/O error before the rename

  /** Where a call of `advance_cursor` stands, with its file descriptors. */
  datatype Pc =
    | Opening
    | Locking(fd: Inode)
    | Statting(fd: Inode)
    | Comparing(fd: Inode, seen: Inode, at: nat)
    | Mismatched(fd: Inode)
    | Creating(fd: Inode)
    | Writing(fd: Inode, tmp: Inode)
    | Renaming(fd: Inode, tmp: Inode)
    | Releasing(fd: Inode, at: nat)
    | Done(outcome: Outcome)
    | Crashed

  /** `begun` and `since` count the renames before the call and before its last `open`. */
  datatype Writer = Writer(pc: Pc, attempt: nat, proposal: string, begun: nat, since: nat)

  /** A call of `read_cursor`; `begun` counts the renames before it. */
  datatype Reader =
    | Checking(begun: nat)
    | Finding(begun: nat)
    | Reading(begun: nat, fd: Inode, at: nat, got: string)
    | Absent(begun: nat)
    | Read(begun: nat, at: nat, text: string)

  datatype State = State(
    path: Option<Inode>,
    content: map<Inode, string>,
    locks: map<Inode, Pid>,
    writers: map<Pid, Writer>,
    readers: map<Pid, Reader>,
    bindings: seq<Binding>)

  datatype Action =
    | Begin(p: Pid, proposal: string)
    | Open(p: Pid, made: Inode)
    | Lock(p: Pid)
    | Stat(p: Pid)
    | Compare(p: Pid)
    | Retry(p: Pid)
    | CreateTmp(p: Pid, made: Inode)
    | Write(p: Pid, upTo: nat)
    | Sync(p: Pid)
    | Rename(p: Pid)
    | Release(p: Pid)
    | Fail(p: Pid)
    | Crash(p: Pid)
    | BeginRead(r: Pid)
    | Exists(r: Pid)
    | OpenRead(r: Pid)
    | ReadChunk(r: Pid, n: nat)
    | EndOfFile(r: Pid)

  function Renames(bindings: seq<Binding>): (n: nat) {
    if bindings == [] then 0 else |bindings| - 1
  }

  function Fd(pc: Pc): Option<Inode> {
    if pc.Opening? || pc.Done? || pc.Crashed? then None else Some(pc.fd)
  }

  function Tmp(pc: Pc): Option<Inode> {
    if pc.Writing? || pc.Renaming? then Some(pc.tmp) else None
  }

  predicate Holds(pc: Pc) {
    Fd(pc).Some? && !pc.Locking?
  }

  /** Between a successful comparison (decided when the path was looked up) and the rename. */
  predicate InWindow(pc: Pc) {
    || (pc.Comparing? && pc.seen == pc.fd)
    || pc.Creating? || pc.Writing? || pc.Renaming?
  }

  predicate Renamed(pc: Pc) {
    pc.Releasing? || (pc.Done? && pc.outcome.Advanced?) || pc.Crashed?
  }

  // ----- steps

  predicate Enabled(s: State, a: Action) {
    match a
    case Begin(p, _) => p in s.writers ==> s.writers[p].pc.Done? || s.writers[p].pc.Crashed?
    case Open(p, made) => p in s.writers && s.writers[p].pc.Opening? && made !in s.content
    case Lock(p) => p in s.writers && s.writers[p].pc.Locking? && s.writers[p].pc.fd !in s.locks
    case Stat(p) => p in s.writers && s.writers[p].pc.Statting? && s.path.Some?
    case Compare(p) => p in s.writers && s.writers[p].pc.Comparing?
    case Retry(p) => p in s.writers && s.writers[p].pc.Mismatched?
    case CreateTmp(p, made) => p in s.writers && s.writers[p].pc.Creating? && made !in s.content
    case Write(p, upTo) => p in s.writers && s.writers[p].pc.Writing? && upTo <= |s.writers[p].proposal|
    case Sync(p) => p in s.writers && s.writers[p].pc.Writing? && Written(s, s.writers[p])
    case Rename(p) => p in s.writers && s.writers[p].pc.Renaming?
    case Release(p) => p in s.writers && s.writers[p].pc.Releasing?
    case Fail(p) => p in s.writers && !Renamed(s.writers[p].pc) && !s.writers[p].pc.Done?
    case Crash(p) => p in s.writers && !s.writers[p].pc.Done?
    case BeginRead(r) => r in s.readers ==> s.readers[r].Absent? || s.readers[r].Read?
    case Exists(r) => r in s.readers && s.readers[r].Checking?
    case OpenRead(r) => r in s.readers && s.readers[r].Finding? && s.path.Some?
    case ReadChunk(r, n) => Reads(s, r) && |s.readers[r].got| + n <= |s.content[s.readers[r].fd]|
    case EndOfFile(r) => Reads(s, r) && |s.readers[r].got| == |s.content[s.readers[r].fd]|
  }

  predicate Written(s: State, w: Writer) {
    Tmp(w.pc).Some? && w.pc.tmp in s.content && s.content[w.pc.tmp] == w.proposal
  }

  predicate Reads(s: State, r: Pid) {
    r in s.readers && s.readers[r].Reading? && s.readers[r].fd in s.content
  }

  function Apply(s: State, a: Action): (s': State)
    requires Enabled(s, a)
  {
    match a
    case Begin(p, v) => s.(writers := s.writers[p := Writer(Opening, 1, v, Renames(s.bindings), 0)])
    case Open(p, made) => OpenPath(s, p, made)
    case Lock(p) => Acquire(s, p)
    case Stat(p) => Goto(s, p, Comparing(s.writers[p].pc.fd, s.path.value, Renames(s.bindings)))
    case Compare(p) => Goto(s, p, Decide(s.writers[p].pc))
    case Retry(p) => Leave(s, p, NextAttempt(s.writers[p], Renames(s.bindings)))
    case CreateTmp(p, made) => MakeTmp(s, p, made)
    case Write(p, upTo) => s.(content := s.content[s.writers[p].pc.tmp := s.writers[p].proposal[..upTo]])
    case Sync(p) => Goto(s, p, Renaming(s.writers[p].pc.fd, s.writers[p].pc.tmp))
    case Rename(p) => RenameTmp(s, p)
    case Release(p) => Leave(s, p, s.writers[p].(pc := Done(Advanced(s.writers[p].pc.at))))
    case Fail(p) => Leave(s, p, s.writers[p].(pc := Done(Failed)))
    case Crash(p) => Leave(s, p, s.writers[p].(pc := Crashed))
    case BeginRead(r) => SetReader(s, r, Checking(Renames(s.bindings)))
    case Exists(r) =>
      SetReader(s, r, if s.path.None? then Absent(s.readers[r].begun) else Finding(s.readers[r].begun))
    case OpenRead(r) => SetReader(s, r, Reading(s.readers[r].begun, s.path.value, Renames(s.bindings), ""))
    case ReadChunk(r, n) => SetReader(s, r, Extended(s.readers[r], s.content[s.readers[r].fd], n))
    case EndOfFile(r) => SetReader(s, r, Read(s.readers[r].begun, s.readers[r].at, s.readers[r].got))
  }

  function Goto(s: State, p: Pid, pc: Pc): (s': State)
    requires p in s.writers
  {
    s.(writers := s.writers[p := s.writers[p].(pc := pc)])
  }

  function SetReader(s: State, r: Pid, d: Reader): (s': State) {
    s.(readers := s.readers[r := d])
  }

  function Extended(d: Reader, text: string, n: nat): (d': Reader)
    requires d.Reading? && |d.got| + n <= |text|
  {
    d.(got := d.got + text[|d.got|..|d.got| + n])
  }

  /** `O_RDWR | O_CREAT`: the file the path names, or a new empty one bound to it. */
  function OpenPath(s: State, p: Pid, made: Inode): (s': State)
    requires p in s.writers
  {
    var t :=
      if s.path.Some? then s
      else s.(path := Some(made), content := s.content[made := ""],
              bindings := s.bindings + [Binding(made, None, "")]);
    t.(writers := t.writers[p := t.writers[p].(pc := Locking(t.path.value), since := Renames(t.bindings))])
  }

  function Acquire(s: State, p: Pid): (s': State)
    requires p in s.writers && s.writers[p].pc.Locking?
  {
    Goto(s.(locks := s.locks[s.writers[p].pc.fd := p]), p, Statting(s.writers[p].pc.fd))
  }

  function Decide(pc: Pc): Pc
    requires pc.Comparing?
  {
    if pc.seen == pc.fd then Creating(pc.fd) else Mismatched(pc.fd)
  }

  function NextAttempt(w: Writer, renames: nat): Writer {
    if w.attempt == RACE_RETRY_LIMIT then w.(pc := Done(Exhausted(renames)))
    else w.(pc := Opening, attempt := w.attempt + 1)
  }

  /** Closing a descriptor drops the lock taken through it. */
  function Leave(s: State, p: Pid, w: Writer): (s': State)
    requires p in s.writers
  {
    var pc := s.writers[p].pc;
    s.(locks := if Holds(pc) then s.locks - {pc.fd} else s.locks, writers := s.writers[p := w])
  }

  function MakeTmp(s: State, p: Pid, made: Inode): (s': State)
    requires p in s.writers && s.writers[p].pc.Creating?
  {
    Goto(s.(content := s.content[made := ""]), p, Writing(s.writers[p].pc.fd, made))
  }

  function RenameTmp(s: State, p: Pid): (s': State)
    requires p in s.writers && s.writers[p].pc.Renaming?
  {
    var w := s.writers[p];
    Goto(s.(path := Some(w.pc.tmp), bindings := s.bindings + [Binding(w.pc.tmp, Some(p), w.proposal)]),
         p, Releasing(w.pc.fd, |s.bindings|))
  }

  /** Nobody is calling, no lock is held; the path may be unbound or hold any file. */
  predicate Init(s: State) {
    && s.locks == map[] && s.writers == map[] && s.readers == map[]
    && match s.path
       case None => s.bindings == []
       case Some(i) => i in s.content && s.bindings == [Binding(i, None, s.content[i])]
  }

  predicate Runs(s: State, run: seq<Action>)
    decreases |run|
  {
    run == [] || (Enabled(s, run[0]) && Runs(Apply(s, run[0]), run[1..]))
  }

  function Exec(s: State, run: seq<Action>): (t: State)
    requires Runs(s, run)
    decreases |run|
  {
    if run == [] then s else Exec(Apply(s, run[0]), run[1..])
  }
}
