/** The retry loop of `advance_cursor`, run against the machine of CursorProtocol.  Before each of its system
    calls the others have a turn, in which they take the given steps as far as they can. */
module AdvanceCursor {
  import opened Wrappers
  import opened CursorInvariant
  import opened CursorProtocol

  datatype CallResult = Returned(outcome: Outcome) | Blocked

  /** Which system call fails; a failed write may have written some characters before. */
  datatype Fault = NoFault | AtOpen | AtLock | AtStat | AtCreate | AtWrite(written: nat) | AtSync | AtRename

  /** Where a call stands when this fault hits it. */
  predicate Hits(fault: Fault, pc: Pc) {
    match fault
    case NoFault => false
    case AtOpen => pc.Opening?
    case AtLock => pc.Locking?
    case AtStat => pc.Statting?
    case AtCreate => pc.Creating?
    case AtWrite(_) => pc.Writing?
    case AtSync => pc.Writing?
    case AtRename => pc.Renaming?
  }

  /** The calls that `write_atomically` makes. */
  predicate InWrite(fault: Fault) {
    fault.AtCreate? || fault.AtWrite? || fault.AtSync? || fault.AtRename?
  }

  predicate ByCall(a: Action, p: Pid) {
    match a
    case BeginRead(_) => false
    case Exists(_) => false
    case OpenRead(_) => false
    case ReadChunk(_, _) => false
    case EndOfFile(_) => false
    case _ => a.p == p
  }

  lemma OthersKeepCall(s: State, a: Action, p: Pid)
    requires p in s.writers && Enabled(s, a) && !ByCall(a, p)
    ensures p in Apply(s, a).writers && Apply(s, a).writers[p] == s.writers[p]
  {
  }

  /** The temporary file of a call is its own. */
  lemma OthersKeepTmp(s: State, a: Action, p: Pid)
    requires Inv(s) && p in s.writers && Enabled(s, a) && !ByCall(a, p) && Tmp(s.writers[p].pc).Some?
    requires Written(s, s.writers[p])
    ensures Written(Apply(s, a), s.writers[p])
  {
    assert TmpOk(s.bindings, s.content, s.writers[p]) by { assert WriterOk(s, p, s.writers[p]); }
    if a.Write? {
      assert Tmp(s.writers[a.p].pc) != Tmp(s.writers[p].pc);
    }
  }

  lemma {:induction false} ExecSnoc(s: State, run: seq<Action>, a: Action)
    requires Runs(s, run) && Enabled(Exec(s, run), a)
    ensures Runs(s, run + [a]) && Exec(s, run + [a]) == Apply(Exec(s, run), a)
    decreases |run|
  {
    if run == [] {
      assert [a][1..] == [];
    } else {
      assert (run + [a])[0] == run[0] && (run + [a])[1..] == run[1..] + [a];
      ExecSnoc(Apply(s, run[0]), run[1..], a);
    }
  }

  /** Some inode number is free. */
  method FreeInode(content: map<Inode, string>) returns (i: Inode)
    ensures i !in content
  {
    i := 0;
    ghost var left := content.Keys;
    while i in content
      invariant forall k :: k in content.Keys && k >= i ==> k in left
      decreases |left|
    {
      left := left - {i};
      i := i + 1;
    }
  }

  /** Turn `k` of the others; when all are over they rest. */
  function Turn(turns: seq<seq<Action>>, k: nat): (steps: seq<Action>) {
    if k < |turns| then turns[k] else []
  }

  /** Everyone but call `p` takes the given steps, each if it can. */
  function Played(s: State, p: Pid, steps: seq<Action>): (t: State)
    decreases |steps|
  {
    if steps == [] then s
    else
      var n := |steps| - 1;
      var t := Played(s, p, steps[..n]);
      if !ByCall(steps[n], p) && Enabled(t, steps[n]) then Apply(t, steps[n]) else t
  }

  lemma PlayedNext(s: State, p: Pid, steps: seq<Action>, i: nat, t: State)
    requires i < |steps| && t == Played(s, p, steps[..i])
    ensures Played(s, p, steps[..i + 1]) ==
            if !ByCall(steps[i], p) && Enabled(t, steps[i]) then Apply(t, steps[i]) else t
  {
    assert steps[..i + 1][..i] == steps[..i];
  }

  /** After `k` turns, from turn `first` on, in which call `p` only waits. */
  function Waited(s: State, p: Pid, turns: seq<seq<Action>>, first: nat, k: nat): (t: State)
    decreases k
  {
    if k == 0 then s else Played(Waited(s, p, turns, first, k - 1), p, Turn(turns, first + k - 1))
  }

  /** The lock on `fd` is held in that state of the wait. */
  predicate HeldAfter(s: State, p: Pid, turns: seq<seq<Action>>, first: nat, k: nat, fd: Inode) {
    fd in Waited(s, p, turns, first, k).locks
  }

  lemma WaitedNext(s: State, p: Pid, turns: seq<seq<Action>>, first: nat, k: nat, next: nat)
    requires next == k + 1
    ensures Waited(s, p, turns, first, next) == Played(Waited(s, p, turns, first, k), p, Turn(turns, first + k))
  {
  }

  /** Once the others have no turn left, nothing changes any more. */
  lemma {:induction false} NothingAfter(s: State, p: Pid, turns: seq<seq<Action>>, first: nat, k: nat, j: nat)
    requires k <= j && |turns| <= first + k
    ensures Waited(s, p, turns, first, j) == Waited(s, p, turns, first, k)
    decreases j
  {
    if k < j {
      NothingAfter(s, p, turns, first, k, j - 1);
      WaitedNext(s, p, turns, first, j - 1, j);
    }
  }

  /** Turn number `i` of the wait began in the state it should, with the lock held. */
  predicate TurnAt(s0: State, given: seq<State>, turns: seq<seq<Action>>, first: nat, p: Pid, fd: Inode, i: nat) {
    && first + i < |given| && given[first + i] == Waited(s0, p, turns, first, i)
    && HeldAfter(s0, p, turns, first, i, fd)
  }

  /** The call waited while the others had `k` turns, the lock being held before each. */
  predicate WaitedSo(s0: State, s: State, given: seq<State>, turns: seq<seq<Action>>, first: nat, p: Pid, fd: Inode,
                     k: nat) {
    && |given| == first + k && s == Waited(s0, p, turns, first, k)
    && forall i: nat :: i < k ==> TurnAt(s0, given, turns, first, p, fd, i)
  }

  lemma TurnStays(s0: State, given: seq<State>, more: seq<State>, turns: seq<seq<Action>>, first: nat, p: Pid,
                  fd: Inode, i: nat)
    requires TurnAt(s0, given, turns, first, p, fd, i) && given <= more
    ensures TurnAt(s0, more, turns, first, p, fd, i)
  {
  }

  lemma WaitedMore(s0: State, s: State, given: seq<State>, turns: seq<seq<Action>>, first: nat, p: Pid, fd: Inode,
                   k: nat, next: nat)
    requires WaitedSo(s0, s, given, turns, first, p, fd, k) && fd in s.locks && next == k + 1
    ensures WaitedSo(s0, Played(s, p, Turn(turns, first + k)), given + [s], turns, first, p, fd, next)
  {
    WaitedNext(s0, p, turns, first, k, next);
    forall i: nat | i < next
      ensures TurnAt(s0, given + [s], turns, first, p, fd, i)
    {
      if i < k {
        TurnStays(s0, given, given + [s], turns, first, p, fd, i);
      }
    }
  }

  lemma TurnHeld(s0: State, s: State, given: seq<State>, turns: seq<seq<Action>>, first: nat, p: Pid, fd: Inode,
                 k: nat, i: nat)
    requires WaitedSo(s0, s, given, turns, first, p, fd, k) && fd in s.locks && i < k
    ensures fd in given[first + i].locks && fd in Played(given[first + i], p, Turn(turns, first + i)).locks
  {
    var next := i + 1;
    WaitedNext(s0, p, turns, first, i, next);
    assert TurnAt(s0, given, turns, first, p, fd, i);
    if next < k {
      assert TurnAt(s0, given, turns, first, p, fd, next);
    }
  }

  lemma WaitedInVain(s0: State, s: State, given: seq<State>, turns: seq<seq<Action>>, first: nat, p: Pid, fd: Inode,
                     k: nat)
    requires WaitedSo(s0, s, given, turns, first, p, fd, k) && fd in s.locks && |given| >= |turns|
    requires p in s.writers && s.writers[p].pc == Locking(fd)
    ensures HeldThroughout(s, given, turns, first, p)
    ensures forall j: nat :: HeldAfter(s0, p, turns, first, j, fd)
  {
    forall j | first <= j < |given|
      ensures fd in given[j].locks && fd in Played(given[j], p, Turn(turns, j)).locks
    {
      TurnHeld(s0, s, given, turns, first, p, fd, k, j - first);
    }
    forall j: nat
      ensures HeldAfter(s0, p, turns, first, j, fd)
    {
      if j >= k {
        NothingAfter(s0, p, turns, first, k, j);
      } else {
        assert TurnAt(s0, given, turns, first, p, fd, j);
      }
    }
  }

  /** In all those states call `p` was in this attempt. */
  predicate During(given: seq<State>, from: nat, p: Pid, attempt: nat) {
    forall j :: from <= j < |given| ==> p in given[j].writers && given[j].writers[p].attempt == attempt
  }

  predicate Earlier(given: seq<State>, from: nat, p: Pid, attempt: nat) {
    forall j :: from <= j < |given| ==> p in given[j].writers && given[j].writers[p].attempt < attempt
  }

  lemma HeldFromThen(s: State, given: seq<State>, turns: seq<seq<Action>>, from: nat, since: nat, p: Pid, attempt: nat)
    requires from <= since <= |given| && HeldThroughout(s, given, turns, since, p)
    requires Earlier(given[..since], from, p, attempt) && s.writers[p].attempt == attempt
    ensures HeldThroughout(s, given, turns, from, p)
  {
    assert forall j :: from <= j < since ==> given[..since][j] == given[j];
  }

  /** Whenever call `p` waited as it does in `s`, the lock was held before and after the turn of the others. */
  predicate HeldThroughout(s: State, given: seq<State>, turns: seq<seq<Action>>, from: nat, p: Pid) {
    && p in s.writers && s.writers[p].pc.Locking? && s.writers[p].pc.fd in s.locks
    && forall j :: from <= j < |given| && p in given[j].writers && given[j].writers[p] == s.writers[p] ==>
         s.writers[p].pc.fd in given[j].locks && s.writers[p].pc.fd in Played(given[j], p, Turn(turns, j)).locks
  }

  ghost predicate Reached(start: State, past: seq<Action>, s: State) {
    Init(start) && Runs(start, past) && s == Exec(start, past)
  }

  lemma ReachedInv(start: State, past: seq<Action>, s: State)
    requires Reached(start, past, s)
    ensures Inv(s)
  {
    InvInit(start);
    InvRun(start, past);
  }

  /** A call that has opened the file finds something at the path. */
  lemma PathIsBound(start: State, past: seq<Action>, s: State, p: Pid)
    requires Reached(start, past, s) && p in s.writers && s.writers[p].pc.Statting?
    ensures s.path.Some?
  {
    ReachedInv(start, past, s);
    assert WriterOk(s, p, s.writers[p]);
  }

  /** `next` is how many turns the others have had; `given[j]` is the state in which turn `j` began, and `failedAt`
      is where the last call that failed stood. */
  class Machine {
    var s: State
    var turns: seq<seq<Action>>
    var next: nat
    ghost var start: State
    ghost var past: seq<Action>
    ghost var given: seq<State>
    ghost var failedAt: Pc

    ghost predicate Valid()
      reads this
    {
      Reached(start, past, s) && |given| == next
    }

    /** The run so far extends an earlier one, and all the while call `p` was in this attempt. */
    ghost predicate Went(start0: State, past0: seq<Action>, given0: seq<State>, turns0: seq<seq<Action>>,
                         p: Pid, attempt: nat)
      reads this
    {
      && Valid() && start == start0 && past0 <= past && turns == turns0
      && given0 <= given && During(given, |given0|, p, attempt)
    }

    /** Call `p` is still the call recorded in `w`. */
    predicate Call(p: Pid, w: Writer)
      reads this
    {
      && p in s.writers && s.writers[p].proposal == w.proposal
      && s.writers[p].begun == w.begun && s.writers[p].attempt == w.attempt
    }

    constructor (initial: State, turns: seq<seq<Action>>)
      requires Init(initial)
      ensures Valid() && s == start == initial && past == [] && this.turns == turns && next == 0
    {
      s, start, past := initial, initial, [];
      this.turns, next, given := turns, 0, [];
    }

    method Do(a: Action)
      requires Valid() && Enabled(s, a)
      modifies `s, `past
      ensures Valid() && past == old(past) + [a] && s == Apply(old(s), a)
    {
      ExecSnoc(start, past, a);
      s := Apply(s, a);
      past := past + [a];
    }

    /** One step of another caller, if it can take it. */
    method OtherStep(p: Pid, a: Action)
      requires Valid() && p in s.writers
      modifies `s, `past
      ensures Valid() && old(past) <= past
      ensures s == if !ByCall(a, p) && Enabled(old(s), a) then Apply(old(s), a) else old(s)
      ensures p in s.writers && s.writers[p] == old(s.writers[p])
      ensures old(Written(s, s.writers[p])) ==> Written(s, s.writers[p])
    {
      if !ByCall(a, p) && Enabled(s, a) {
        OthersKeepCall(s, a, p);
        if Written(s, s.writers[p]) {
          ReachedInv(start, past, s);
          OthersKeepTmp(s, a, p);
        }
        Do(a);
      }
    }

    method Play(p: Pid, steps: seq<Action>)
      requires Valid() && p in s.writers
      modifies `s, `past
      ensures Valid() && old(past) <= past && s == Played(old(s), p, steps)
      ensures p in s.writers && s.writers[p] == old(s.writers[p])
      ensures old(Written(s, s.writers[p])) ==> Written(s, s.writers[p])
    {
      var i := 0;
      while i < |steps|
        invariant 0 <= i <= |steps|
        invariant Valid() && old(past) <= past && s == Played(old(s), p, steps[..i])
        invariant p in s.writers && s.writers[p] == old(s.writers[p])
        invariant old(Written(s, s.writers[p])) ==> Written(s, s.writers[p])
      {
        PlayedNext(old(s), p, steps, i, s);
        OtherStep(p, steps[i]);
        i := i + 1;
      }
      assert steps[..|steps|] == steps;
    }

    /** The others have their next turn. */
    method Others(p: Pid)
      requires Valid() && p in s.writers
      modifies `s, `past, `next, `given
      ensures Valid() && old(past) <= past && given == old(given) + [old(s)]
      ensures s == Played(old(s), p, Turn(turns, old(next)))
      ensures p in s.writers && s.writers[p] == old(s.writers[p])
      ensures old(Written(s, s.writers[p])) ==> Written(s, s.writers[p])
    {
      given := given + [s];
      next := next + 1;
      Play(p, Turn(turns, next - 1));
    }

    /** `path_matches_fd` with the lock held: look the path up, then compare. */
    method PathMatchesFd(p: Pid) returns (matches: bool)
      requires Valid() && p in s.writers && s.writers[p].pc.Statting?
      modifies this
      ensures Went(old(start), old(past), old(given), old(turns), p, old(s.writers[p].attempt))
      ensures Call(p, old(s.writers[p]))
      ensures if matches then s.writers[p].pc.Creating? else s.writers[p].pc.Mismatched?
    {
      PathIsBound(start, past, s, p);
      Do(Stat(p));
      Others(p);
      Do(Compare(p));
      matches := s.writers[p].pc.Creating?;
    }

    method BeginCall(p: Pid, proposal: string)
      requires Valid() && Enabled(s, Begin(p, proposal))
      modifies `s, `past
      ensures Valid() && old(past) <= past
      ensures Call(p, Writer(Opening, 1, proposal, Renames(old(s.bindings)), 0)) && s.writers[p].pc.Opening?
    {
      Do(Begin(p, proposal));
    }

    /** The others have a turn; then the file is opened, unless that fails. */
    method OpenCursor(p: Pid, fault: Fault) returns (ok: bool)
      requires Valid() && p in s.writers && s.writers[p].pc.Opening?
      modifies this
      ensures Went(old(start), old(past), old(given), old(turns), p, old(s.writers[p].attempt))
      ensures Call(p, old(s.writers[p])) && (ok <==> !fault.AtOpen?) && given == old(given) + [old(s)]
      ensures if ok then s.writers[p].pc.Locking? else s.writers[p].pc == Done(Failed) && Hits(fault, failedAt)
    {
      Others(p);
      ok := !fault.AtOpen?;
      if ok {
        var made := FreeInode(s.content);
        Do(Open(p, made));
      } else {
        GiveUp(p, fault);
      }
    }

    method AcquireLock(p: Pid)
      requires Valid() && p in s.writers && s.writers[p].pc.Locking? && s.writers[p].pc.fd !in s.locks
      modifies `s, `past
      ensures Valid() && old(past) <= past && Call(p, old(s.writers[p])) && s.writers[p].pc.Statting?
    {
      Do(Lock(p));
    }

    /** Drop everything; then retry, or give up after the last attempt. */
    method DropAndRetry(p: Pid)
      requires Valid() && p in s.writers && s.writers[p].pc.Mismatched?
      modifies `s, `past
      ensures Valid() && old(past) <= past && p in s.writers
      ensures s.writers[p].proposal == old(s.writers[p].proposal) && s.writers[p].begun == old(s.writers[p].begun)
      ensures old(s.writers[p].attempt) == RACE_RETRY_LIMIT ==>
        s.writers[p].pc == Done(Exhausted(old(Renames(s.bindings)))) && s.writers[p].attempt == RACE_RETRY_LIMIT
      ensures old(s.writers[p].attempt) != RACE_RETRY_LIMIT ==>
        s.writers[p].pc.Opening? && s.writers[p].attempt == old(s.writers[p].attempt) + 1
    {
      Do(Retry(p));
    }

    /** The call fails here: it drops its descriptors and with them its lock. */
    method GiveUp(p: Pid, ghost fault: Fault)
      requires Valid() && Enabled(s, Fail(p)) && Hits(fault, s.writers[p].pc)
      modifies `s, `past, `failedAt
      ensures Valid() && old(past) <= past && Call(p, old(s.writers[p])) && s.writers[p].pc == Done(Failed)
      ensures Hits(fault, failedAt)
    {
      failedAt := s.writers[p].pc;
      Do(Fail(p));
    }

    method CreateFile(p: Pid, fault: Fault) returns (ok: bool)
      requires Valid() && p in s.writers && s.writers[p].pc.Creating?
      modifies this
      ensures Went(old(start), old(past), old(given), old(turns), p, old(s.writers[p].attempt))
      ensures Call(p, old(s.writers[p])) && (ok <==> !fault.AtCreate?)
      ensures if ok then s.writers[p].pc.Writing? else s.writers[p].pc == Done(Failed) && Hits(fault, failedAt)
    {
      Others(p);
      ok := !fault.AtCreate?;
      if ok {
        var made := FreeInode(s.content);
        Do(CreateTmp(p, made));
      } else {
        GiveUp(p, fault);
      }
    }

    /** Write as much of the proposal as the disk takes. */
    method WriteSome(p: Pid, n: nat)
      requires Valid() && p in s.writers && s.writers[p].pc.Writing?
      modifies `s, `past
      ensures Valid() && old(past) <= past && Call(p, old(s.writers[p])) && s.writers[p].pc.Writing?
      ensures n >= |s.writers[p].proposal| ==> Written(s, s.writers[p])
    {
      Do(Write(p, if n < |s.writers[p].proposal| then n else |s.writers[p].proposal|));
    }

    method WriteProposal(p: Pid, fault: Fault) returns (ok: bool)
      requires Valid() && p in s.writers && s.writers[p].pc.Writing?
      modifies this
      ensures Went(old(start), old(past), old(given), old(turns), p, old(s.writers[p].attempt))
      ensures Call(p, old(s.writers[p])) && (ok <==> !fault.AtWrite?)
      ensures if ok then s.writers[p].pc.Writing? && Written(s, s.writers[p])
              else s.writers[p].pc == Done(Failed) && Hits(fault, failedAt)
    {
      Others(p);
      ok := !fault.AtWrite?;
      WriteSome(p, if ok then |s.writers[p].proposal| else fault.written);
      if !ok {
        GiveUp(p, fault);
      }
    }

    method SyncFile(p: Pid, fault: Fault) returns (ok: bool)
      requires Valid() && p in s.writers && s.writers[p].pc.Writing? && Written(s, s.writers[p])
      modifies this
      ensures Went(old(start), old(past), old(given), old(turns), p, old(s.writers[p].attempt))
      ensures Call(p, old(s.writers[p])) && (ok <==> !fault.AtSync?)
      ensures if ok then s.writers[p].pc.Renaming? else s.writers[p].pc == Done(Failed) && Hits(fault, failedAt)
    {
      Others(p);
      ok := !fault.AtSync?;
      if ok {
        Do(Sync(p));
      } else {
        GiveUp(p, fault);
      }
    }

    method RenameFile(p: Pid, fault: Fault) returns (ok: bool)
      requires Valid() && p in s.writers && s.writers[p].pc.Renaming?
      modifies this
      ensures Went(old(start), old(past), old(given), old(turns), p, old(s.writers[p].attempt))
      ensures Call(p, old(s.writers[p])) && (ok <==> !fault.AtRename?)
      ensures if ok then s.writers[p].pc.Releasing? else s.writers[p].pc == Done(Failed) && Hits(fault, failedAt)
    {
      Others(p);
      ok := !fault.AtRename?;
      if ok {
        Do(Rename(p));
      } else {
        GiveUp(p, fault);
      }
    }

    method ReleaseLock(p: Pid) returns (outcome: Outcome)
      requires Valid() && p in s.writers && s.writers[p].pc.Releasing?
      modifies this
      ensures Went(old(start), old(past), old(given), old(turns), p, old(s.writers[p].attempt))
      ensures Call(p, old(s.writers[p])) && s.writers[p].pc == Done(outcome) && outcome.Advanced?
    {
      Others(p);
      outcome := Advanced(s.writers[p].pc.at);
      Do(Release(p));
    }

    /** Create, write, sync and rename a temporary file; any of the four may fail. */
    method WriteAtomically(p: Pid, fault: Fault) returns (outcome: Outcome)
      requires Valid() && p in s.writers && s.writers[p].pc.Creating?
      modifies this
      ensures Went(old(start), old(past), old(given), old(turns), p, old(s.writers[p].attempt))
      ensures Call(p, old(s.writers[p])) && s.writers[p].pc == Done(outcome)
      ensures if InWrite(fault) then outcome == Failed && Hits(fault, failedAt) else outcome.Advanced?
    {
      outcome := Failed;
      var ok := CreateFile(p, fault);
      if ok {
        ok := WriteProposal(p, fault);
      }
      if ok {
        ok := SyncFile(p, fault);
      }
      if ok {
        ok := RenameFile(p, fault);
      }
      if ok {
        outcome := ReleaseLock(p);
      }
    }

    /** One more turn of a wait that began in `s0`. */
    method WaitTurn(p: Pid, ghost s0: State, ghost first: nat, ghost k: nat, ghost next1: nat)
      requires Valid() && p in s.writers && s.writers[p].pc.Locking? && s.writers[p].pc.fd in s.locks
      requires WaitedSo(s0, s, given, turns, first, p, s.writers[p].pc.fd, k) && next1 == k + 1
      modifies `s, `past, `next, `given
      ensures Valid() && old(past) <= past && given == old(given) + [old(s)]
      ensures p in s.writers && s.writers[p] == old(s.writers[p])
      ensures WaitedSo(s0, s, given, turns, first, p, s.writers[p].pc.fd, next1)
    {
      WaitedMore(s0, s, given, turns, first, p, s.writers[p].pc.fd, k, next1);
      Others(p);
    }

    /** Wait for the lock, however many turns the others have until they let go of it.  It comes free exactly if
        they do so in any of the turns that they still have, and then after the first such turn. */
    method WaitForLock(p: Pid) returns (free: bool)
      requires Valid() && p in s.writers && s.writers[p].pc.Locking?
      modifies `s, `past, `next, `given
      ensures Went(old(start), old(past), old(given), old(turns), p, old(s.writers[p].attempt))
      ensures p in s.writers && s.writers[p] == old(s.writers[p])
      ensures WaitedSo(old(s), s, given, turns, old(next), p, s.writers[p].pc.fd, next - old(next))
      ensures free <==> s.writers[p].pc.fd !in s.locks
      ensures free <==> exists j: nat :: !HeldAfter(old(s), p, turns, old(next), j, s.writers[p].pc.fd)
      ensures !free ==> next >= |turns| && HeldThroughout(s, given, turns, old(next), p)
    {
      ghost var s0, first, fd, k: nat := s, next, s.writers[p].pc.fd, 0;
      while s.writers[p].pc.fd in s.locks
        invariant Went(old(start), old(past), old(given), old(turns), p, old(s.writers[p].attempt))
        invariant p in s.writers && s.writers[p] == old(s.writers[p]) && s.writers[p].pc == Locking(fd)
        invariant next == first + k && WaitedSo(s0, s, given, turns, first, p, fd, k)
        decreases |turns| - next
      {
        if next >= |turns| {
          WaitedInVain(s0, s, given, turns, first, p, fd, k);
          return false;
        }
        WaitTurn(p, s0, first, k, k + 1);
        k := k + 1;
      }
      free := true;
      assert !HeldAfter(s0, p, turns, first, k, fd);
    }

    /** Open the file and lock it. */
    method OpenAndLock(p: Pid, fault: Fault) returns (locked: bool)
      requires Valid() && p in s.writers && s.writers[p].pc.Opening?
      modifies this
      ensures Went(old(start), old(past), old(given), old(turns), p, old(s.writers[p].attempt))
      ensures Call(p, old(s.writers[p]))
      ensures locked ==> s.writers[p].pc.Statting? && !fault.AtOpen? && !fault.AtLock?
      ensures !locked && (fault.AtOpen? || fault.AtLock?) ==> s.writers[p].pc == Done(Failed) && Hits(fault, failedAt)
      ensures !locked && !fault.AtOpen? && !fault.AtLock? ==>
        next >= |turns| && HeldThroughout(s, given, turns, old(next), p)
    {
      locked := OpenCursor(p, fault);
      if !locked {
        return;
      }
      locked := false;
      if fault.AtLock? {
        GiveUp(p, fault);
        return;
      }
      locked := WaitForLock(p);
      if locked {
        AcquireLock(p);
      }
    }

    /** With the lock: compare, and write if the path still names the locked file. */
    method CompareAndWrite(p: Pid, fault: Fault) returns (outcome: Option<Outcome>)
      requires Valid() && p in s.writers && s.writers[p].pc.Statting?
      modifies this
      ensures Went(old(start), old(past), old(given), old(turns), p, old(s.writers[p].attempt))
      ensures Call(p, old(s.writers[p]))
      ensures outcome.None? ==> s.writers[p].pc.Mismatched? && !fault.AtStat?
      ensures outcome.Some? ==> s.writers[p].pc == Done(outcome.value)
      ensures outcome.Some? ==> if InWrite(fault) || fault.AtStat? then outcome.value == Failed && Hits(fault, failedAt)
                                else outcome.value.Advanced?
    {
      Others(p);
      if fault.AtStat? {
        GiveUp(p, fault);
        return Some(Failed);
      }
      var matched := PathMatchesFd(p);
      if !matched {
        return None;
      }
      var written := WriteAtomically(p, fault);
      outcome := Some(written);
    }

    /** One turn of the retry loop: `None` if the path named another file. */
    method Attempt(p: Pid, fault: Fault) returns (r: Option<CallResult>)
      requires Valid() && p in s.writers && s.writers[p].pc.Opening?
      modifies this
      ensures Went(old(start), old(past), old(given), old(turns), p, old(s.writers[p].attempt))
      ensures Call(p, old(s.writers[p]))
      ensures r.None? ==> s.writers[p].pc.Mismatched?
      ensures r == Some(Blocked) ==> next >= |turns| && HeldThroughout(s, given, turns, old(next), p)
      ensures r.Some? && r.value.Returned? ==> s.writers[p].pc == Done(r.value.outcome)
      ensures r.Some? && r.value.Returned? ==>
        if fault.NoFault? then r.value.outcome.Advanced? else r.value.outcome == Failed && Hits(fault, failedAt)
    {
      var locked := OpenAndLock(p, fault);
      if !locked {
        return Some(if fault.AtOpen? || fault.AtLock? then Returned(Failed) else Blocked);
      }
      var outcome := CompareAndWrite(p, fault);
      r := if outcome.Some? then Some(Returned(outcome.value)) else None;
    }

    /** `fault` is what fails in the turn `faulty` of the loop.  The call fails only there.  It hangs only if the
        others have no turn left and, since it last opened the file, held the lock before and after each one. */
    method AdvanceCursor(p: Pid, proposal: string, fault: Fault, faulty: nat) returns (r: CallResult)
      requires Valid() && Enabled(s, Begin(p, proposal))
      modifies this
      ensures Valid() && start == old(start) && old(past) <= past && turns == old(turns) && old(given) <= given
      ensures p in s.writers && s.writers[p].proposal == proposal && s.writers[p].begun == Renames(old(s.bindings))
      ensures r.Returned? ==> s.writers[p].pc == Done(r.outcome)
      ensures s.writers[p].attempt <= 5 && (r.Returned? && r.outcome.Exhausted? ==> s.writers[p].attempt == 5)
      ensures r == Returned(Failed) ==> s.writers[p].attempt == faulty && Hits(fault, failedAt)
      ensures r.Returned? && r.outcome.Advanced? ==> fault.NoFault? || s.writers[p].attempt != faulty
      ensures r.Blocked? ==> next >= |turns| && HeldThroughout(s, given, turns, old(next), p)
    {
      BeginCall(p, proposal);
      var attempt := 1;
      while attempt <= RACE_RETRY_LIMIT
        invariant 1 <= attempt <= RACE_RETRY_LIMIT
        invariant Valid() && start == old(start) && old(past) <= past && turns == old(turns) && old(given) <= given
        invariant Call(p, Writer(Opening, attempt, proposal, Renames(old(s.bindings)), 0)) && s.writers[p].pc.Opening?
        invariant Earlier(given, old(next), p, attempt)
        decreases RACE_RETRY_LIMIT - attempt
      {
        ghost var before := given;
        var result := Attempt(p, if attempt == faulty then fault else NoFault);
        if result.Some? {
          if result.value.Blocked? {
            HeldFromThen(s, given, turns, old(next), |before|, p, attempt);
          }
          return result.value;
        }
        DropAndRetry(p);
        if attempt == RACE_RETRY_LIMIT {
          return Returned(s.writers[p].pc.outcome);
        }
        attempt := attempt + 1;
      }
      assert false;
    }
  }
}
