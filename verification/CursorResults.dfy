/** What every run of CursorProtocol guarantees. */
module CursorResults {
  import opened Wrappers
  import opened CursorProtocol
  import opened CursorInvariant

  /** At most one caller is between a successful comparison and its rename; throughout, it holds the
      lock of the very file that the path is still bound to. */
  lemma MutualExclusion(s: State, run: seq<Action>, p: Pid, q: Pid)
    requires Init(s) && Runs(s, run)
    requires p in Exec(s, run).writers && InWindow(Exec(s, run).writers[p].pc)
    ensures var t := Exec(s, run);
      && t.path == Some(t.writers[p].pc.fd)
      && t.writers[p].pc.fd in t.locks && t.locks[t.writers[p].pc.fd] == p
      && (q in t.writers && InWindow(t.writers[q].pc) ==> q == p)
  {
    var t := Exec(s, run);
    InvInit(s);
    InvRun(s, run);
    assert LockOk(t.path, t.locks, p, t.writers[p]) by { assert WriterOk(t, p, t.writers[p]); }
    if q in t.writers && InWindow(t.writers[q].pc) {
      OneInWindow(t, p, q);
    }
  }

  /** A call gives up only if at least five renames happened while it ran, all by other callers. */
  lemma ExhaustedOnlyByOthers(s: State, run: seq<Action>, p: Pid)
    requires Init(s) && Runs(s, run)
    requires p in Exec(s, run).writers && Exec(s, run).writers[p].pc.Done?
    requires Exec(s, run).writers[p].pc.outcome.Exhausted?
    ensures var t := Exec(s, run);
      var w := t.writers[p];
      && w.begun + 5 <= w.pc.outcome.seen < |t.bindings|
      && forall k :: w.begun < k <= w.pc.outcome.seen ==> t.bindings[k].author != Some(p)
  {
    var t := Exec(s, run);
    InvInit(s);
    InvRun(s, run);
    assert AuthorOk(t.bindings, p, t.writers[p]) by { assert WriterOk(t, p, t.writers[p]); }
  }

  /** A call that reports success made exactly one rename, with its own proposal. */
  lemma AdvancedExactlyOnce(s: State, run: seq<Action>, p: Pid)
    requires Init(s) && Runs(s, run)
    requires p in Exec(s, run).writers && Exec(s, run).writers[p].pc.Done?
    requires Exec(s, run).writers[p].pc.outcome.Advanced?
    ensures var t := Exec(s, run);
      var w := t.writers[p];
      && w.begun < w.pc.outcome.at < |t.bindings| && t.bindings[w.pc.outcome.at].value == w.proposal
      && forall k :: w.begun < k < |t.bindings| ==>
           (t.bindings[k].author == Some(p) <==> k == w.pc.outcome.at)
  {
    var t := Exec(s, run);
    InvInit(s);
    InvRun(s, run);
    assert AuthorOk(t.bindings, p, t.writers[p]) by { assert WriterOk(t, p, t.writers[p]); }
  }

  /** The values at the path form one history: steps only ever add to it, and the file the path
      names holds the last value of the history, whole. */
  lemma {:induction false} LinearHistory(s: State, run: seq<Action>)
    requires Inv(s) && Runs(s, run)
    ensures var t := Exec(s, run);
      && s.bindings <= t.bindings
      && (t.path.Some? ==>
            && t.bindings != [] && t.path.value in t.content
            && t.content[t.path.value] == t.bindings[|t.bindings| - 1].value)
    decreases |run|
  {
    if run != [] {
      InvStep(s, run[0]);
      assert s.bindings <= Apply(s, run[0]).bindings;
      LinearHistory(Apply(s, run[0]), run[1..]);
    }
  }

  /** Every entry after the first is a rename whose value was proposed, in full, by its author. */
  ghost predicate Sourced(s: State, past: seq<Action>) {
    && (forall p :: p in s.writers ==> Begin(p, s.writers[p].proposal) in past)
    && (forall k :: 1 <= k < |s.bindings| ==>
          s.bindings[k].author.Some? && Begin(s.bindings[k].author.value, s.bindings[k].value) in past)
  }

  lemma SourcedStep(s: State, past: seq<Action>, a: Action)
    requires BindingsOk(s) && Sourced(s, past) && Enabled(s, a)
    ensures Sourced(Apply(s, a), past + [a])
  {
    var t := Apply(s, a);
    assert a in past + [a];
    assert forall b :: b in past ==> b in past + [a];
    if a.Open? {
      assert forall k :: 1 <= k < |t.bindings| ==> t.bindings[k] == s.bindings[k];
    }
  }

  lemma {:induction false} ValuesWereProposed(s: State, past: seq<Action>, run: seq<Action>)
    requires Inv(s) && Sourced(s, past) && Runs(s, run)
    ensures Sourced(Exec(s, run), past + run)
    decreases |run|
  {
    if run == [] {
      assert past + run == past;
    } else {
      SourcedStep(s, past, run[0]);
      InvStep(s, run[0]);
      ValuesWereProposed(Apply(s, run[0]), past + [run[0]], run[1..]);
      assert past + [run[0]] + run[1..] == past + run;
    }
  }

  /** A reader gets one whole value of the history, one that was current during its call; it finds
      no file only if nothing had been renamed before its call. */
  lemma ReadsOneValue(s: State, run: seq<Action>, r: Pid)
    requires Init(s) && Runs(s, run) && r in Exec(s, run).readers
    ensures var t := Exec(s, run);
      var d := t.readers[r];
      && (d.Read? ==>
            && d.begun <= d.at < |t.bindings| && d.text == t.bindings[d.at].value
            && (d.at > 0 ==> exists p :: Begin(p, d.text) in run))
      && (d.Absent? ==> d.begun == 0)
  {
    var t := Exec(s, run);
    InvInit(s);
    InvRun(s, run);
    assert ReaderOk(t.bindings, t.readers[r]);
    ValuesWereProposed(s, [], run);
    assert [] + run == run;
    if t.readers[r].Read? && t.readers[r].at > 0 {
      var b := t.bindings[t.readers[r].at];
      assert Begin(b.author.value, b.value) in run;
    }
  }
}
