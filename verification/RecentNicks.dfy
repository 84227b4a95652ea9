/** The recently seen nicks of a room tab (`record_nick` in `tabs.rs`): bounded, most recent first. */
module RecentNicks {
  import opened Wrappers

  const RECENT_NICKS_CAP: nat := 32

  /** The White_Space property of Unicode. */
  predicate IsSpace(c: char) {
    var n := c as int;
    || 9 <= n <= 13 || n == 0x20 || n == 0x85 || n == 0xA0 || n == 0x1680 || 0x2000 <= n <= 0x200A
    || n == 0x2028 || n == 0x2029 || n == 0x202F || n == 0x205F || n == 0x3000
  }

  function TrimStart(s: string): (t: string)
    ensures t != "" ==> !IsSpace(t[0])
    decreases |s|
  {
    if s != "" && IsSpace(s[0]) then TrimStart(s[1..]) else s
  }

  function TrimEnd(s: string): (t: string)
    ensures t <= s && (t != "" ==> !IsSpace(t[|t| - 1]))
    decreases |s|
  {
    if s != "" && IsSpace(s[|s| - 1]) then TrimEnd(s[..|s| - 1]) else s
  }

  function Trim(s: string): (t: string)
    ensures t != "" ==> !IsSpace(t[0]) && !IsSpace(t[|t| - 1])
  {
    TrimEnd(TrimStart(s))
  }

  /** The first place of `n`; the length if it is not there. */
  function IndexOf(nicks: seq<string>, n: string): (i: nat)
    ensures i <= |nicks| && n !in nicks[..i] && (i < |nicks| ==> nicks[i] == n)
    ensures i == |nicks| <==> n !in nicks
    decreases |nicks|
  {
    if nicks == [] || nicks[0] == n then 0 else 1 + IndexOf(nicks[1..], n)
  }

  function Remove(nicks: seq<string>, n: string): (rest: seq<string>) {
    var i := IndexOf(nicks, n);
    if i < |nicks| then nicks[..i] + nicks[i + 1..] else nicks
  }

  function Cut(nicks: seq<string>, cap: nat): (kept: seq<string>)
    ensures kept <= nicks && |kept| <= cap
  {
    if |nicks| <= cap then nicks else nicks[..cap]
  }

  function Front(nicks: seq<string>): (kept: seq<string>)
    ensures kept <= nicks && |kept| <= RECENT_NICKS_CAP
  {
    Cut(nicks, RECENT_NICKS_CAP)
  }

  /** Move a nick to the front; blank ones are ignored. */
  function Seen(nicks: seq<string>, nick: string): (r: seq<string>) {
    var n := Trim(nick);
    if n == "" then nicks else [n] + Remove(nicks, n)
  }

  class RoomTab {
    var recentNicks: seq<string>

    constructor ()
      ensures recentNicks == []
    {
      recentNicks := [];
    }

    method RecordNick(nick: string)
      requires |recentNicks| <= RECENT_NICKS_CAP
      modifies this
      ensures recentNicks == Front(Seen(old(recentNicks), nick))
    {
      var trimmed := Trim(nick);
      if trimmed == "" {
        return;
      }
      var pos := IndexOf(recentNicks, trimmed);
      if pos < |recentNicks| {
        recentNicks := recentNicks[..pos] + recentNicks[pos + 1..];
      }
      recentNicks := [trimmed] + recentNicks;
      ghost var full := recentNicks;
      assert full == Seen(old(recentNicks), nick);
      while |recentNicks| > RECENT_NICKS_CAP
        invariant |recentNicks| >= RECENT_NICKS_CAP || recentNicks == full
        invariant |recentNicks| <= |full| && recentNicks == full[..|recentNicks|]
        decreases |recentNicks|
      {
        recentNicks := recentNicks[..|recentNicks| - 1];
      }
    }
  }

  /** The bounded list after a history of calls. */
  function Bounded(history: seq<string>): (nicks: seq<string>)
    ensures |nicks| <= RECENT_NICKS_CAP
    decreases |history|
  {
    if history == [] then [] else Front(Seen(Bounded(history[..|history| - 1]), history[|history| - 1]))
  }

  /** The list that is never cut. */
  function Unbounded(history: seq<string>): (nicks: seq<string>)
    decreases |history|
  {
    if history == [] then [] else Seen(Unbounded(history[..|history| - 1]), history[|history| - 1])
  }

  predicate Distinct(nicks: seq<string>) {
    forall i, j :: 0 <= i < j < |nicks| ==> nicks[i] != nicks[j]
  }

  lemma RemoveMeans(nicks: seq<string>, n: string)
    requires Distinct(nicks)
    ensures Distinct(Remove(nicks, n)) && n !in Remove(nicks, n)
    ensures forall m :: m in Remove(nicks, n) <==> m in nicks && m != n
  {
    var i := IndexOf(nicks, n);
    if i < |nicks| {
      assert nicks == nicks[..i] + [n] + nicks[i + 1..];
      forall j | i < j < |nicks|
        ensures nicks[j] != n
      {
      }
    }
  }

  /** What lies beyond the cut never comes back to the front by itself. */
  lemma CutCommutes(nicks: seq<string>, n: string, cap: nat)
    requires cap > 0
    ensures Cut([n] + Remove(nicks, n), cap) == Cut([n] + Remove(Cut(nicks, cap), n), cap)
  {
    if |nicks| > cap {
      var i, cut := IndexOf(nicks, n), nicks[..cap];
      IndexInFront(nicks, cut, n);
      if i < cap {
        CutInside(nicks, i, cap);
        PushTake(n, nicks[..i] + nicks[i + 1..], cap - 1);
      } else {
        PushTake(n, cut, cap - 1);
        RemoveBeyond(nicks, n, cap);
        PushTake(n, Remove(nicks, n), cap - 1);
      }
    }
  }

  lemma PushTake(n: string, rest: seq<string>, k: nat)
    requires k <= |rest|
    ensures Cut([n] + rest, k + 1) == [n] + rest[..k]
  {
    assert ([n] + rest)[..k + 1] == [n] + rest[..k];
  }

  lemma RemoveBeyond(nicks: seq<string>, n: string, cap: nat)
    requires 0 < cap <= IndexOf(nicks, n)
    ensures |Remove(nicks, n)| >= cap - 1 && Remove(nicks, n)[..cap - 1] == nicks[..cap][..cap - 1]
  {
  }

  lemma CutInside(nicks: seq<string>, i: nat, cap: nat)
    requires i < cap < |nicks|
    ensures (nicks[..i] + nicks[i + 1..])[..cap - 1] == nicks[..cap][..i] + nicks[..cap][i + 1..]
  {
  }

  lemma IndexInFront(nicks: seq<string>, cut: seq<string>, n: string)
    requires cut <= nicks
    ensures IndexOf(cut, n) == if IndexOf(nicks, n) < |cut| then IndexOf(nicks, n) else |cut|
  {
    var i, j := IndexOf(nicks, n), IndexOf(cut, n);
    assert forall k :: 0 <= k < |cut| ==> cut[k] == nicks[k];
    assert forall k :: 0 <= k < i ==> nicks[..i][k] == nicks[k];
    assert forall k :: 0 <= k < j ==> cut[..j][k] == cut[k];
  }

  /** Forgetting all but 32 nicks never changes what the first 32 are. */
  lemma {:induction false} BoundedIsFront(history: seq<string>)
    ensures Bounded(history) == Front(Unbounded(history))
    decreases |history|
  {
    if history != [] {
      var front, n := history[..|history| - 1], Trim(history[|history| - 1]);
      BoundedIsFront(front);
      CutCommutes(Unbounded(front), n, RECENT_NICKS_CAP);
    }
  }

  // ----- what the unbounded list is

  /** The last call that named `n`; -1 if there is none. */
  function LastSeen(history: seq<string>, n: string): (k: int)
    ensures -1 <= k < |history|
    ensures k >= 0 ==> Trim(history[k]) == n
    ensures forall j :: k < j < |history| ==> Trim(history[j]) != n
    decreases |history|
  {
    if history == [] then -1
    else if Trim(history[|history| - 1]) == n then |history| - 1
    else
      var k := LastSeen(history[..|history| - 1], n);
      assert forall j :: 0 <= j < |history| - 1 ==> history[..|history| - 1][j] == history[j];
      k
  }

  predicate OrderedBy(nicks: seq<string>, f: string -> int) {
    forall i, j :: 0 <= i < j < |nicks| ==> f(nicks[i]) > f(nicks[j])
  }

  lemma RemoveKeepsOrder(nicks: seq<string>, n: string, f: string -> int)
    requires OrderedBy(nicks, f)
    ensures OrderedBy(Remove(nicks, n), f)
  {
    var at, rest := IndexOf(nicks, n), Remove(nicks, n);
    forall i, j | 0 <= i < j < |rest|
      ensures f(rest[i]) > f(rest[j])
    {
      if at < |nicks| {
        assert rest[i] == nicks[if i < at then i else i + 1] && rest[j] == nicks[if j < at then j else j + 1];
      }
    }
  }

  lemma PushKeepsOrder(rest: seq<string>, n: string, f: string -> int, g: string -> int)
    requires OrderedBy(rest, f) && forall m :: m in rest ==> g(m) == f(m) < g(n)
    ensures OrderedBy([n] + rest, g)
  {
    var more := [n] + rest;
    forall i, j | 0 <= i < j < |more|
      ensures g(more[i]) > g(more[j])
    {
      assert more[j] == rest[j - 1] && rest[j - 1] in rest;
      if i > 0 {
        assert more[i] == rest[i - 1] && rest[i - 1] in rest;
      }
    }
  }

  function Recency(history: seq<string>): (f: string -> int) {
    (n: string) => LastSeen(history, n)
  }

  lemma RecencyStep(front: seq<string>, nick: string, m: string)
    ensures Recency(front + [nick])(m) == if Trim(nick) == m then |front| else Recency(front)(m)
  {
    assert (front + [nick])[..|front|] == front;
  }

  /** Just the nicks that were named, once each, the one named last first. */
  lemma {:induction false} UnboundedIsByRecency(history: seq<string>)
    ensures Distinct(Unbounded(history)) && OrderedBy(Unbounded(history), Recency(history))
    ensures forall n :: n in Unbounded(history) <==> n != "" && Recency(history)(n) >= 0
    decreases |history|
  {
    if history != [] {
      var last := |history| - 1;
      var front, n := history[..last], Trim(history[last]);
      var before := Unbounded(front);
      UnboundedIsByRecency(front);
      RemoveMeans(before, n);
      assert history == front + [history[last]];
      forall m
        ensures Recency(history)(m) == if n == m then last else Recency(front)(m)
      {
        RecencyStep(front, history[last], m);
      }
      RemoveKeepsOrder(before, n, Recency(front));
      if n != "" {
        PushKeepsOrder(Remove(before, n), n, Recency(front), Recency(history));
      } else {
        OrderSame(before, Recency(front), Recency(history));
      }
    }
  }

  lemma OrderSame(nicks: seq<string>, f: string -> int, g: string -> int)
    requires OrderedBy(nicks, f) && forall m :: m in nicks ==> f(m) == g(m)
    ensures OrderedBy(nicks, g)
  {
  }

  // ----- what trimming means

  /** The code points of White_Space. */
  const WHITE_SPACE: set<int> :=
    {0x9, 0xA, 0xB, 0xC, 0xD, 0x20, 0x85, 0xA0, 0x1680, 0x2000, 0x2001, 0x2002, 0x2003, 0x2004, 0x2005, 0x2006,
     0x2007, 0x2008, 0x2009, 0x200A, 0x2028, 0x2029, 0x202F, 0x205F, 0x3000}

  predicate AllSpace(s: string) {
    forall i :: 0 <= i < |s| ==> s[i] as int in WHITE_SPACE
  }

  lemma SpaceIff(c: char)
    ensures IsSpace(c) <==> c as int in WHITE_SPACE
  {
  }

  /** `t` without the white space around it. */
  ghost predicate IsTrimmed(s: string, t: string) {
    && (exists front, back :: s == front + t + back && AllSpace(front) && AllSpace(back))
    && (t != "" ==> t[0] as int !in WHITE_SPACE && t[|t| - 1] as int !in WHITE_SPACE)
  }

  lemma {:induction false} TrimStartMeans(s: string) returns (front: string)
    ensures s == front + TrimStart(s) && AllSpace(front)
    decreases |s|
  {
    front := "";
    if s != "" && IsSpace(s[0]) {
      var more := TrimStartMeans(s[1..]);
      SpaceIff(s[0]);
      front := [s[0]] + more;
      assert s == [s[0]] + s[1..];
    }
  }

  lemma {:induction false} TrimEndMeans(s: string) returns (back: string)
    ensures s == TrimEnd(s) + back && AllSpace(back)
    decreases |s|
  {
    back := "";
    if s != "" && IsSpace(s[|s| - 1]) {
      var more := TrimEndMeans(s[..|s| - 1]);
      SpaceIff(s[|s| - 1]);
      back := more + [s[|s| - 1]];
      assert s == s[..|s| - 1] + [s[|s| - 1]];
    }
  }

  /** A nick is recorded without the white space before and after it. */
  lemma TrimMeans(s: string)
    ensures IsTrimmed(s, Trim(s))
  {
    var front := TrimStartMeans(s);
    var back := TrimEndMeans(TrimStart(s));
    assert s == front + Trim(s) + back;
    if Trim(s) != "" {
      SpaceIff(Trim(s)[0]);
      SpaceIff(Trim(s)[|Trim(s)| - 1]);
    }
  }

  /** The list never holds more than 32 nicks, and those are the last 32 that were named. */
  lemma LastThirtyTwo(history: seq<string>)
    ensures var all := Unbounded(history); Bounded(history) == if |all| <= 32 then all else all[..32]
  {
    BoundedIsFront(history);
  }
}
