/** What the rate limiter allows, in milliseconds and counts. */
module RateNumbers {
  import opened RateLimiter

  function Between(earlier: Time, later: Time): (ms: int) {
    later as int - earlier as int
  }

  lemma {:induction false} AllowedUpTo(calls: seq<Call>, author: string, now: Time)
    requires InOrder(calls, author) && NotLater(calls, author, now)
    ensures UpTo(Allowed(calls, author), now)
    decreases |calls|
  {
    if calls != [] {
      var n := |calls| - 1;
      var front, c := calls[..n], calls[n];
      assert forall i :: 0 <= i < n ==> front[i] == calls[i];
      if c.author == author {
        AllowedUpTo(front, author, c.now);
      } else {
        AllowedUpTo(front, author, now);
      }
    }
  }

  lemma {:induction false} NoneOfThem(times: seq<Time>, now: Time)
    requires forall i :: 0 <= i < |times| ==> now - times[i] > WINDOW_MS
    ensures Recent(times, now) == 0
    decreases |times|
  {
    if times != [] {
      NoneOfThem(times[..|times| - 1], now);
    }
  }

  lemma StaleThenRest(times: seq<Time>, stale: seq<Time>, rest: seq<Time>, now: Time)
    requires times == stale + rest && forall j :: 0 <= j < |stale| ==> now - stale[j] > WINDOW_MS
    ensures Recent(times, now) <= |rest|
  {
    RecentSplit(stale, rest, now);
    NoneOfThem(stale, now);
    RecentAtMostAll(rest, now);
  }

  lemma AnyThenRecent(times: seq<Time>, any: seq<Time>, rest: seq<Time>, now: Time)
    requires times == any + rest && forall j :: 0 <= j < |rest| ==> now - rest[j] <= WINDOW_MS
    ensures Recent(times, now) >= |rest|
  {
    RecentSplit(any, rest, now);
    AllRecent(rest, now);
  }

  /** In order, fewer than `k` are recent exactly if the `k`-th last is not. */
  lemma FewerThanIff(times: seq<Time>, now: Time, k: nat, i: int)
    requires Sorted(times) && k > 0 && i == |times| - k
    ensures Recent(times, now) < k <==> i < 0 || now - times[i] > WINDOW_MS
  {
    if i < 0 {
      RecentAtMostAll(times, now);
    } else if now - times[i] > WINDOW_MS {
      StaleThenRest(times, times[..i + 1], times[i + 1..], now);
    } else {
      AnyThenRecent(times, times[..i], times[i..], now);
    }
  }

  /** A call in order is allowed exactly if fewer than 30 were so far, or the 30th last of those came more than
      10,000 ms ago. */
  lemma AllowedInNumbers(past: seq<Call>, c: Call, times: seq<Time>)
    requires InOrder(past + [c], c.author) && times == Allowed(past, c.author)
    ensures DecisionAt(past + [c], |past|).Allow? <==> |times| < 30 || Between(times[|times| - 30], c.now) > 10000
  {
    var calls := past + [c];
    assert forall i :: 0 <= i < |past| ==> past[i] == calls[i];
    assert calls[|past|] == c;
    AllowIff(past, c);
    AllowedUpTo(past, c.author, c.now);
    FewerThanIff(times, c.now, 30, |times| - 30);
  }

  lemma LastOfThirtyOne(front: seq<Call>, c: Call, times: seq<Time>, k: nat)
    requires InOrder(front + [c], c.author) && times == Allowed(front, c.author) && |times| == k + 30
    requires DecisionAt(front + [c], |front|).Allow?
    ensures Between(times[k], c.now) > 10000
  {
    AllowedInNumbers(front, c, times);
  }

  /** Any 31 allowed calls in a row span more than 10,000 ms. */
  lemma {:induction false} ThirtyOneInARow(calls: seq<Call>, author: string, times: seq<Time>, k: nat, last: nat)
    requires InOrder(calls, author) && times == Allowed(calls, author) && last == k + 30 < |times|
    ensures Between(times[k], times[last]) > 10000
    decreases |calls|
  {
    var n := |calls| - 1;
    var front, c := calls[..n], calls[n];
    var before := Allowed(front, author);
    assert calls == front + [c];
    assert forall i :: 0 <= i < n ==> front[i] == calls[i];
    AllowedSnoc(front, c, author);
    if last < |before| {
      ThirtyOneInARow(front, author, before, k, last);
    } else {
      LastOfThirtyOne(front, c, before, k);
    }
  }

  /** A dropped call warns exactly if it is the author's first to do so, or the last warning is 30,000 ms ago. */
  lemma WarnsInNumbers(calls: seq<Call>, i: nat, earlier: seq<Time>)
    requires i < |calls| && DecisionAt(calls, i).Drop? && earlier == Warnings(calls[..i], calls[i].author)
    ensures DecisionAt(calls, i).warn <==> earlier == [] || calls[i].now - earlier[|earlier| - 1] >= 30000
  {
    WarnIff(calls, i);
  }
}
