/** The per-author sliding-window rate limiter (`rate_limit.rs`). */
module RateLimiter {
  import opened Wrappers

  const WINDOW_MS: int := 10000
  const MAX_PER_WINDOW: nat := 30
  const WARN_COOLDOWN_MS: int := 30000
  const I64_MAX: int := 0x7FFF_FFFF_FFFF_FFFF

  /** Milliseconds since 1970, as the callers read them off the clock. */
  type Time = t: int | 0 <= t <= I64_MAX

  datatype Decision = Allow | Drop(warn: bool)

  /** The two maps of the limiter. */
  datatype Limiter = Limiter(byAuthor: map<string, seq<Time>>, lastWarned: map<string, Time>)

  function Window(l: Limiter, author: string): (w: seq<Time>) {
    if author in l.byAuthor then l.byAuthor[author] else []
  }

  function Warned(l: Limiter, author: string): (t: Option<Time>) {
    if author in l.lastWarned then Some(l.lastWarned[author]) else None
  }

  predicate IsSuffix(r: seq<Time>, w: seq<Time>) {
    |r| <= |w| && forall i :: 0 <= i < |r| ==> r[i] == w[|w| - |r| + i]
  }

  /** Pop what has left the window from the front. */
  function Trim(w: seq<Time>, now: Time): (r: seq<Time>)
    ensures IsSuffix(r, w)
    decreases |w|
  {
    if w != [] && now - w[0] > WINDOW_MS then Trim(w[1..], now) else w
  }

  /** The subtraction saturates, and an author never warned counts as warned at the least time. */
  function MayWarn(last: Option<Time>, now: Time): (warn: bool) {
    var elapsed := if last.Some? then now - last.value else I64_MAX;
    elapsed >= WARN_COOLDOWN_MS
  }

  function Decide(w: seq<Time>, last: Option<Time>, now: Time): (d: Decision) {
    if |Trim(w, now)| >= MAX_PER_WINDOW then Drop(MayWarn(last, now)) else Allow
  }

  function Check(l: Limiter, author: string, now: Time): (r: (Limiter, Decision)) {
    var trimmed := Trim(Window(l, author), now);
    match Decide(Window(l, author), Warned(l, author), now)
    case Allow => (l.(byAuthor := l.byAuthor[author := trimmed + [now]]), Allow)
    case Drop(warn) =>
      (Limiter(l.byAuthor[author := trimmed], if warn then l.lastWarned[author := now] else l.lastWarned), Drop(warn))
  }

  class RateLimiter {
    var byAuthor: map<string, seq<Time>>
    var lastWarned: map<string, Time>

    function State(): (l: Limiter)
      reads this
    {
      Limiter(byAuthor, lastWarned)
    }

    constructor ()
      ensures State() == Limiter(map[], map[])
    {
      byAuthor, lastWarned := map[], map[];
    }

    method CheckAndRecord(author: string, now: Time) returns (d: Decision)
      modifies this
      ensures (State(), d) == Check(old(State()), author, now)
    {
      if author !in byAuthor {
        byAuthor := byAuthor[author := []];
      }
      ghost var w := Window(old(State()), author);
      assert byAuthor[author] == w;
      while byAuthor[author] != [] && now - byAuthor[author][0] > WINDOW_MS
        invariant author in byAuthor && byAuthor == old(byAuthor)[author := byAuthor[author]]
        invariant lastWarned == old(lastWarned)
        invariant Trim(byAuthor[author], now) == Trim(w, now)
        decreases |byAuthor[author]|
      {
        byAuthor := byAuthor[author := byAuthor[author][1..]];
      }
      assert byAuthor == old(byAuthor)[author := Trim(w, now)];
      if |byAuthor[author]| >= MAX_PER_WINDOW {
        var last: Option<Time> := if author in lastWarned then Some(lastWarned[author]) else None;
        var warn := MayWarn(last, now);
        if warn {
          lastWarned := lastWarned[author := now];
        }
        return Drop(warn);
      }
      byAuthor := byAuthor[author := byAuthor[author] + [now]];
      assert byAuthor == old(byAuthor)[author := Trim(w, now) + [now]];
      d := Allow;
    }
  }

  // ----- call sequences

  datatype Call = Call(author: string, now: Time)

  function After(calls: seq<Call>): (l: Limiter)
    decreases |calls|
  {
    if calls == [] then Limiter(map[], map[])
    else Check(After(calls[..|calls| - 1]), calls[|calls| - 1].author, calls[|calls| - 1].now).0
  }

  /** The decision on the `i`-th call. */
  function DecisionAt(calls: seq<Call>, i: nat): (d: Decision)
    requires i < |calls|
  {
    Check(After(calls[..i]), calls[i].author, calls[i].now).1
  }

  /** No call of the author so far was later than `now`. */
  predicate NotLater(calls: seq<Call>, author: string, now: Time) {
    forall i :: 0 <= i < |calls| && calls[i].author == author ==> calls[i].now <= now
  }

  /** The author's calls fall at most `d` ms behind an earlier one of them. */
  predicate Lag(calls: seq<Call>, author: string, d: nat) {
    forall i, j :: 0 <= i < j < |calls| && calls[i].author == author && calls[j].author == author ==>
      calls[i].now - calls[j].now <= d
  }

  /** For this author the clock does not run backwards. */
  predicate InOrder(calls: seq<Call>, author: string) {
    Lag(calls, author, 0)
  }

  /** The times of the calls by `author` that were allowed. */
  function Allowed(calls: seq<Call>, author: string): (times: seq<Time>)
    decreases |calls|
  {
    if calls == [] then []
    else
      var n := |calls| - 1;
      Allowed(calls[..n], author)
      + if calls[n].author == author && DecisionAt(calls, n).Allow? then [calls[n].now] else []
  }

  /** How many of the times lie within the last `WINDOW_MS`. */
  function Recent(times: seq<Time>, now: Time): (n: nat)
    decreases |times|
  {
    if times == [] then 0
    else Recent(times[..|times| - 1], now) + if now - times[|times| - 1] <= WINDOW_MS then 1 else 0
  }

  predicate Sorted(times: seq<Time>) {
    forall i, j :: 0 <= i < j < |times| ==> times[i] <= times[j]
  }

  lemma {:induction false} RecentSplit(a: seq<Time>, b: seq<Time>, now: Time)
    ensures Recent(a + b, now) == Recent(a, now) + Recent(b, now)
    decreases |b|
  {
    if b == [] {
      assert a + b == a;
    } else {
      var n := |b| - 1;
      assert (a + b)[..|a| + n] == a + b[..n];
      RecentSplit(a, b[..n], now);
    }
  }

  lemma RecentOne(t: Time, now: Time)
    ensures Recent([t], now) == if now - t <= WINDOW_MS then 1 else 0
  {
    assert [t][..0] == [];
  }

  lemma RecentFirst(w: seq<Time>, now: Time)
    requires w != []
    ensures Recent(w, now) == Recent(w[1..], now) + if now - w[0] <= WINDOW_MS then 1 else 0
  {
    RecentSplit([w[0]], w[1..], now);
    RecentOne(w[0], now);
    assert [w[0]] + w[1..] == w;
  }

  lemma {:induction false} RecentAtMostAll(w: seq<Time>, now: Time)
    ensures Recent(w, now) <= |w|
    decreases |w|
  {
    if w != [] {
      RecentAtMostAll(w[..|w| - 1], now);
    }
  }

  /** What is trimmed at some time is not recent then, nor later. */
  lemma {:induction false} TrimKeepsRecent(w: seq<Time>, t: Time, now: Time)
    requires t <= now
    ensures Recent(Trim(w, t), now) == Recent(w, now)
    decreases |w|
  {
    if w != [] && t - w[0] > WINDOW_MS {
      RecentFirst(w, now);
      TrimKeepsRecent(w[1..], t, now);
    }
  }

  lemma {:induction false} AllRecent(w: seq<Time>, now: Time)
    requires forall i :: 0 <= i < |w| ==> now - w[i] <= WINDOW_MS
    ensures Recent(w, now) == |w|
    decreases |w|
  {
    if w != [] {
      AllRecent(w[..|w| - 1], now);
    }
  }

  /** On sorted times nothing stale hides behind the deque's front. */
  lemma {:induction false} TrimIsRecent(w: seq<Time>, now: Time)
    requires Sorted(w)
    ensures |Trim(w, now)| == Recent(w, now)
    decreases |w|
  {
    if w != [] {
      if now - w[0] > WINDOW_MS {
        RecentFirst(w, now);
        TrimIsRecent(w[1..], now);
      } else {
        assert forall i :: 0 <= i < |w| ==> w[0] <= w[i];
        AllRecent(w, now);
      }
    }
  }

  /** What a check does to the entries of an author. */
  lemma CheckEntries(l: Limiter, author: string, now: Time, other: string)
    ensures var (l', d) := Check(l, author, now);
      && Window(l', other) == (if other != author then Window(l, other)
                               else Trim(Window(l, author), now) + if d.Allow? then [now] else [])
      && Warned(l', other) == (if other == author && d == Drop(true) then Some(now) else Warned(l, other))
  {
  }

  lemma AllowedSnoc(front: seq<Call>, c: Call, author: string)
    ensures Allowed(front + [c], author) ==
            Allowed(front, author)
            + if c.author == author && DecisionAt(front + [c], |front|).Allow? then [c.now] else []
  {
    assert (front + [c])[..|front|] == front;
  }

  lemma AfterSnoc(front: seq<Call>, c: Call)
    ensures After(front + [c]) == Check(After(front), c.author, c.now).0
    ensures DecisionAt(front + [c], |front|) == Check(After(front), c.author, c.now).1
  {
    assert (front + [c])[..|front|] == front;
  }

  /** However the calls are ordered, the deque has forgotten no allowed call that is recent at a time not
      earlier than any of them. */
  lemma {:induction false} OnlyOldForgotten(calls: seq<Call>, author: string, now: Time)
    requires NotLater(calls, author, now)
    ensures Recent(Window(After(calls), author), now) == Recent(Allowed(calls, author), now)
    decreases |calls|
  {
    if calls != [] {
      var n := |calls| - 1;
      var front, c := calls[..n], calls[n];
      assert calls == front + [c];
      assert forall i :: 0 <= i < n ==> front[i] == calls[i];
      OnlyOldForgotten(front, author, now);
      AfterSnoc(front, c);
      AllowedSnoc(front, c, author);
      CheckEntries(After(front), c.author, c.now, author);
      if c.author == author {
        ForgetsOldOnly(Window(After(front), author), Allowed(front, author), c.now,
                       DecisionAt(calls, n).Allow?, now);
      } else {
        assert Allowed(front, author) + [] == Allowed(front, author);
      }
    }
  }

  lemma ForgetsOldOnly(w: seq<Time>, allowed: seq<Time>, t: Time, allow: bool, now: Time)
    requires t <= now && Recent(w, now) == Recent(allowed, now)
    ensures var more := if allow then [t] else [];
      Recent(Trim(w, t) + more, now) == Recent(allowed + more, now)
  {
    TrimKeepsRecent(w, t, now);
    RecentSplit(Trim(w, t), if allow then [t] else [], now);
    RecentSplit(allowed, if allow then [t] else [], now);
  }

  /** Whatever happened before, a call that is not earlier than its author's calls is allowed only if fewer
      than 30 allowed ones are recent. */
  lemma AllowedOnlyIfFew(past: seq<Call>, c: Call)
    requires NotLater(past, c.author, c.now) && DecisionAt(past + [c], |past|).Allow?
    ensures Recent(Allowed(past, c.author), c.now) < MAX_PER_WINDOW
  {
    var w := Window(After(past), c.author);
    AfterSnoc(past, c);
    OnlyOldForgotten(past, c.author, c.now);
    TrimKeepsRecent(w, c.now, c.now);
    RecentAtMostAll(Trim(w, c.now), c.now);
  }

  /** Sorted, and not later than `now`. */
  predicate UpTo(w: seq<Time>, now: Time) {
    Sorted(w) && forall i :: 0 <= i < |w| ==> w[i] <= now
  }

  lemma UpToStep(w: seq<Time>, t: Time, allow: bool, now: Time)
    requires UpTo(w, t) && t <= now
    ensures UpTo(Trim(w, t) + if allow then [t] else [], now)
  {
  }

  lemma {:induction false} WindowSorted(calls: seq<Call>, author: string, now: Time)
    requires InOrder(calls, author) && NotLater(calls, author, now)
    ensures UpTo(Window(After(calls), author), now)
    decreases |calls|
  {
    if calls != [] {
      var n := |calls| - 1;
      var front, c := calls[..n], calls[n];
      assert calls == front + [c];
      assert forall i :: 0 <= i < n ==> front[i] == calls[i];
      AfterSnoc(front, c);
      CheckEntries(After(front), c.author, c.now, author);
      if c.author == author {
        WindowSorted(front, author, c.now);
        UpToStep(Window(After(front), author), c.now, DecisionAt(calls, n).Allow?, now);
      } else {
        WindowSorted(front, author, now);
      }
    }
  }

  /** If the clock does not run backwards for an author, the limiter follows the naive rule: a call is
      allowed exactly if fewer than 30 allowed calls by its author lie within the last 10 seconds. */
  lemma AllowIff(past: seq<Call>, c: Call)
    requires InOrder(past + [c], c.author)
    ensures DecisionAt(past + [c], |past|).Allow? <==> Recent(Allowed(past, c.author), c.now) < MAX_PER_WINDOW
  {
    var calls := past + [c];
    assert forall i :: 0 <= i < |past| ==> past[i] == calls[i];
    assert calls[|past|] == c;
    AfterSnoc(past, c);
    OnlyOldForgotten(past, c.author, c.now);
    WindowSorted(past, c.author, c.now);
    TrimIsRecent(Window(After(past), c.author), c.now);
  }

  // ----- what follows from the rule

  /** How many of the times lie in the closed span of `WINDOW_MS` from `lo` on. */
  function CountIn(times: seq<Time>, lo: int): (n: nat)
    decreases |times|
  {
    if times == [] then 0
    else
      var n := |times| - 1;
      CountIn(times[..n], lo) + if lo <= times[n] <= lo + WINDOW_MS then 1 else 0
  }

  lemma CountSnoc(times: seq<Time>, t: Time, lo: int)
    ensures CountIn(times + [t], lo) == CountIn(times, lo) + if lo <= t <= lo + WINDOW_MS then 1 else 0
  {
    assert (times + [t])[..|times|] == times;
  }

  lemma {:induction false} CountIsRecent(times: seq<Time>, lo: int, now: Time)
    requires now <= lo + WINDOW_MS
    ensures CountIn(times, lo) <= Recent(times, now)
    decreases |times|
  {
    if times != [] {
      CountIsRecent(times[..|times| - 1], lo, now);
    }
  }

  /** No closed span of 10 seconds holds more than 30 allowed calls of the author. */
  ghost predicate Bounded(calls: seq<Call>, author: string) {
    forall lo :: CountIn(Allowed(calls, author), lo) <= MAX_PER_WINDOW
  }

  lemma {:induction false} AtMost30InAnySpan(calls: seq<Call>, author: string, lo: int)
    requires InOrder(calls, author)
    ensures CountIn(Allowed(calls, author), lo) <= MAX_PER_WINDOW
    decreases |calls|
  {
    if calls != [] {
      var n := |calls| - 1;
      var front, c := calls[..n], calls[n];
      assert calls == front + [c];
      assert forall i :: 0 <= i < n ==> front[i] == calls[i];
      AtMost30InAnySpan(front, author, lo);
      AllowedSnoc(front, c, author);
      if c.author != author || DecisionAt(calls, n).Drop? {
        assert Allowed(calls, author) == Allowed(front, author);
      } else {
        CountSnoc(Allowed(front, author), c.now, lo);
        if lo <= c.now <= lo + WINDOW_MS {
          AllowedOnlyIfFew(front, c);
          CountIsRecent(Allowed(front, author), lo, c.now);
        }
      }
    }
  }

  function Warnings(calls: seq<Call>, author: string): (times: seq<Time>)
    decreases |calls|
  {
    if calls == [] then []
    else
      var n := |calls| - 1;
      Warnings(calls[..n], author)
      + if calls[n].author == author && DecisionAt(calls, n) == Drop(true) then [calls[n].now] else []
  }

  lemma {:induction false} LastWarning(calls: seq<Call>, author: string)
    ensures Warned(After(calls), author) ==
            if Warnings(calls, author) == [] then None
            else Some(Warnings(calls, author)[|Warnings(calls, author)| - 1])
    decreases |calls|
  {
    if calls != [] {
      LastWarning(calls[..|calls| - 1], author);
    }
  }

  /** A dropped call warns exactly if it is the author's first warning or the cooldown is over. */
  lemma WarnIff(calls: seq<Call>, i: nat)
    requires i < |calls| && DecisionAt(calls, i).Drop?
    ensures var earlier := Warnings(calls[..i], calls[i].author);
      DecisionAt(calls, i).warn <==>
      earlier == [] || calls[i].now - earlier[|earlier| - 1] >= WARN_COOLDOWN_MS
  {
    LastWarning(calls[..i], calls[i].author);
  }

  /** Whatever the clock does, an author's next warning comes at least 30 seconds after the previous one. */
  lemma {:induction false} WarningsApart(calls: seq<Call>, author: string, k: nat)
    requires k + 1 < |Warnings(calls, author)|
    ensures Warnings(calls, author)[k + 1] - Warnings(calls, author)[k] >= WARN_COOLDOWN_MS
    decreases |calls|
  {
    var n := |calls| - 1;
    LastWarning(calls[..n], author);
    if k + 1 < |Warnings(calls[..n], author)| {
      WarningsApart(calls[..n], author, k);
    }
  }

  /** The calls of one author. */
  function Own(calls: seq<Call>, author: string): (own: seq<Call>)
    decreases |calls|
  {
    if calls == [] then []
    else
      var n := |calls| - 1;
      Own(calls[..n], author) + if calls[n].author == author then [calls[n]] else []
  }

  lemma {:induction false} OnlyOwnCallsCount(calls: seq<Call>, author: string)
    ensures Window(After(calls), author) == Window(After(Own(calls, author)), author)
    ensures Warned(After(calls), author) == Warned(After(Own(calls, author)), author)
    decreases |calls|
  {
    if calls != [] {
      var n := |calls| - 1;
      OnlyOwnCallsCount(calls[..n], author);
      CheckEntries(After(calls[..n]), calls[n].author, calls[n].now, author);
      if calls[n].author == author {
        var front := Own(calls[..n], author);
        AfterSnoc(front, calls[n]);
        CheckEntries(After(front), author, calls[n].now, author);
      } else {
        assert Own(calls[..n], author) + [] == Own(calls[..n], author);
      }
    }
  }

  /** A decision depends on the author's own calls only. */
  lemma AuthorsAreIsolated(calls: seq<Call>, c: Call)
    ensures DecisionAt(calls + [c], |calls|) == DecisionAt(Own(calls, c.author) + [c], |Own(calls, c.author)|)
  {
    OnlyOwnCallsCount(calls, c.author);
    assert (calls + [c])[..|calls|] == calls;
    var own := Own(calls, c.author);
    assert (own + [c])[..|own|] == own;
  }

  // ----- a clock that runs backwards

  function Repeat<T>(x: T, n: nat): (xs: seq<T>)
    ensures |xs| == n
  {
    if n == 0 then [] else Repeat(x, n - 1) + [x]
  }

  lemma {:induction false} RepeatAll<T>(x: T, n: nat)
    ensures forall i :: 0 <= i < n ==> Repeat(x, n)[i] == x
  {
    if n > 0 {
      RepeatAll(x, n - 1);
    }
  }

  /** One more call that finds room. */
  lemma StepForward(calls: seq<Call>, c: Call)
    requires |Trim(Window(After(calls), c.author), c.now)| < MAX_PER_WINDOW
    ensures Allowed(calls + [c], c.author) == Allowed(calls, c.author) + [c.now]
    ensures Window(After(calls + [c]), c.author) == Trim(Window(After(calls), c.author), c.now) + [c.now]
  {
    AfterSnoc(calls, c);
    AllowedSnoc(calls, c, c.author);
    CheckEntries(After(calls), c.author, c.now, c.author);
  }

  /** A burst within one millisecond fills the window. */
  predicate Filled(c: Call, n: nat) {
    && Window(After(Repeat(c, n)), c.author) == Repeat(c.now, n)
    && Allowed(Repeat(c, n), c.author) == Repeat(c.now, n)
  }

  lemma TrimFresh(t: Time, n: nat)
    ensures Trim(Repeat(t, n), t) == Repeat(t, n)
  {
    RepeatAll(t, n);
  }

  lemma {:induction false} BurstIsAllowed(c: Call, n: nat)
    requires n <= MAX_PER_WINDOW
    ensures Filled(c, n)
  {
    if n > 0 {
      BurstIsAllowed(c, n - 1);
      TrimFresh(c.now, n - 1);
      StepForward(Repeat(c, n - 1), c);
    }
  }

  lemma {:induction false} TrimEmpties(w: seq<Time>, now: Time)
    requires forall i :: 0 <= i < |w| ==> now - w[i] > WINDOW_MS
    ensures Trim(w, now) == []
    decreases |w|
  {
    if w != [] {
      TrimEmpties(w[1..], now);
    }
  }

  lemma {:induction false} CountRepeat(t: Time, n: nat)
    ensures CountIn(Repeat(t, n), t) == n
  {
    if n > 0 {
      CountRepeat(t, n - 1);
      CountSnoc(Repeat(t, n - 1), t, t);
    }
  }

  /** A full burst, one call that empties the window, and one that falls back into the burst's span. */
  lemma JumpAndBack(c: Call, jump: Call, late: Call, n: nat)
    requires 0 < n <= MAX_PER_WINDOW && jump.author == c.author == late.author
    requires jump.now - c.now > WINDOW_MS && c.now <= late.now <= c.now + WINDOW_MS
    ensures CountIn(Allowed(Repeat(c, n) + [jump] + [late], c.author), c.now) == n + 1
  {
    var burst, times := Repeat(c, n), Repeat(c.now, n);
    BurstIsAllowed(c, n);
    RepeatAll(c.now, n);
    TrimEmpties(times, jump.now);
    StepForward(burst, jump);
    StepForward(burst + [jump], late);
    CountRepeat(c.now, n);
    CountSnoc(times, jump.now, c.now);
    CountSnoc(times + [jump.now], late.now, c.now);
  }

  function Tight(author: string, t: Time): (calls: seq<Call>)
    requires t + WINDOW_MS + 1 <= I64_MAX
  {
    Repeat(Call(author, t), MAX_PER_WINDOW) + [Call(author, t + WINDOW_MS + 1)] + [Call(author, t + WINDOW_MS)]
  }

  /** One millisecond back is enough: 30 calls at `t`, one just after their window, one at its very end make
      31 allowed calls in the closed span from `t` on. */
  lemma OneMillisecondBack(author: string, t: Time)
    requires t + WINDOW_MS + 1 <= I64_MAX
    ensures CountIn(Allowed(Tight(author, t), author), t) == 31 && Lag(Tight(author, t), author, 1)
  {
    var c := Call(author, t);
    JumpAndBack(c, Call(author, t + WINDOW_MS + 1), Call(author, t + WINDOW_MS), MAX_PER_WINDOW);
    TightLag(c, Call(author, t + WINDOW_MS + 1), Call(author, t + WINDOW_MS), MAX_PER_WINDOW);
  }

  lemma TightLag(c: Call, jump: Call, late: Call, n: nat)
    requires c.now <= late.now <= jump.now <= late.now + 1
    ensures Lag(Repeat(c, n) + [jump] + [late], c.author, 1)
  {
    RepeatAll(c, n);
  }

  /** How far the clock may fall behind an earlier call of the same author: the bound holds for every such
      sequence of calls exactly if that is not at all. */
  lemma BoundIffNoLag(d: nat)
    ensures (forall calls, author :: Lag(calls, author, d) ==> Bounded(calls, author)) <==> d == 0
  {
    if d == 0 {
      forall calls, author | Lag(calls, author, d)
        ensures Bounded(calls, author)
      {
        forall lo
          ensures CountIn(Allowed(calls, author), lo) <= MAX_PER_WINDOW
        {
          AtMost30InAnySpan(calls, author, lo);
        }
      }
    } else {
      OneMillisecondBack("", 0);
      assert Lag(Tight("", 0), "", d) && !Bounded(Tight("", 0), "");
    }
  }
}
