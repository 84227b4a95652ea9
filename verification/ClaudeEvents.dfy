/** What the blocks that Claude's events leave behind say, in terms of those events alone. */
module ClaudeEvents {
  import opened ClaudeBlocks
  import opened Strings
  import opened Wrappers

  // ----- what one event says

  /** `allow` and `always-allow` allow; every other behaviour denies. */
  predicate Decision(behavior: string, status: PermissionStatus) {
    && status != Pending
    && (status == Allowed <==> behavior == "allow")
    && (status == AlwaysAllowed <==> behavior == "always-allow")
  }

  /** A hook is fine if it reports success, and no exit code or the exit code 0. */
  predicate Exit(outcome: string, exitCode: Option<int>, status: HookStatus) {
    && status != HookPending
    && (status == HookOk <==> outcome == "success" && (exitCode.None? || exitCode == Some(0)))
  }

  /** The numeral of `n`. */
  predicate IsNumeral(s: string, n: nat) {
    (forall i :: 0 <= i < |s| ==> IsDigit(s[i])) && DecimalValue(s) == n
  }

  /** Up to 8000 characters are stored whole, of more the first 8000 and how many more there are. */
  ghost predicate Stored(raw: string, isError: bool, r: ToolResult) {
    && r.isError == isError
    && (r.truncated <==> |raw| > 8000)
    && (|raw| <= 8000 ==> r.fullText == raw)
    && (|raw| > 8000 ==> exists left ::
          IsNumeral(left, |raw| - 8000)
          && r.fullText == raw[..8000] + "\n\n\U{2026} [truncated, " + left + " more chars]")
  }

  predicate FirstNonEmpty(candidates: seq<string>, s: string) {
    exists i :: 0 <= i < |candidates| && s == candidates[i] != "" && forall j :: 0 <= j < i ==> candidates[j] == ""
  }

  /** A turn ends in an error if the result says so, or has a subtype that is not `success`; and then the block
      says why, with the first of the text, the status of the API and the subtype that is not empty. */
  predicate TurnEnd(e: Event, b: Block)
    requires e.ResultEvent?
  {
    && b.Result? && b.numTurns == (if e.numTurns.Some? then e.numTurns.value else 0)
    && b.isError == (e.isError || (e.subtype.Some? && e.subtype != Some("success")))
    && (b.errorText.Some? <==> b.isError)
    && (b.isError ==>
          FirstNonEmpty([e.text, e.apiStatus, if e.subtype.Some? then e.subtype.value else "", "unknown error"],
                        b.errorText.value))
  }

  lemma DecisionIs(behavior: string)
    ensures Decision(behavior, BehaviorStatus(behavior))
  {
    assert |"allow"| != |"always-allow"|;
  }

  lemma StoredIs(raw: string, isError: bool)
    ensures Stored(raw, isError, StoredResult(raw, isError))
  {
    if |raw| > 8000 {
      DecimalInverse(|raw| - 8000);
      assert IsNumeral(Decimal(|raw| - 8000), |raw| - 8000);
    }
  }

  lemma TurnEndIs(e: Event)
    requires e.ResultEvent?
    ensures TurnEnd(e, ResultBlock(e))
  {
    var c := [e.text, e.apiStatus, Or(e.subtype, ""), "unknown error"];
    assert c[0] != "" || c[1] != "" || c[2] != "" || c[3] != "";
    if c[0] != "" {
    } else if c[1] != "" {
    } else if c[2] != "" {
    } else {
    }
  }

  // ----- from the atoms of an event back to the event

  /** Event `e` asks for a block that others may answer. */
  ghost predicate Asks(e: Event, b: Block) {
    match b
    case Permission(id, details, status) => status == Pending && e == PermissionRequest(id, details)
    case Hook(id, name, status, exitCode) =>
      status == HookPending && exitCode == None && e.HookStarted? && e.hookId == id != ""
      && name == (if e.hookName.Some? then e.hookName.value else "?")
    case Tool(id, name, input, result) =>
      result == None && name != "" && e.Assistant?
      && exists given :: ToolUse(given, name, input) in e.content && (given.Some? ==> given.value == id)
    case _ => false
  }

  /** Event `e` answers the block `b`, which then is as it stands here. */
  ghost predicate AnswersWith(e: Event, b: Block) {
    match b
    case Permission(id, _, status) => e.PermissionResolved? && e.requestId == id && Decision(e.behavior, status)
    case Hook(id, _, status, exitCode) =>
      e.HookResponse? && e.hookId == id != "" && exitCode == e.exitCode && Exit(e.outcome, e.exitCode, status)
    case Tool(id, _, _, result) =>
      id != "" && result.Some? && e.UserBlocks?
      && exists raw, isError :: ToolResultContent(id, raw, isError) in e.blocks && Stored(raw, isError, result.value)
    case _ => false
  }

  lemma {:induction false} ContentRegisters(cs: seq<Content>, a: Atom)
    requires a in AllContent(cs) && !a.Append?
    ensures a.Register? && a.kind == ToolKind && a.b.Tool? && a.b.result == None && a.b.name != ""
    ensures ToolUse(a.id, a.b.name, a.b.input) in cs
    decreases |cs|
  {
    var n := |cs| - 1;
    if a in AllContent(cs[..n]) {
      ContentRegisters(cs[..n], a);
    }
  }

  lemma {:induction false} UserResponds(cs: seq<UserContent>, a: Atom)
    requires a in AllUser(cs)
    ensures a.Respond? && a.key.kind == ToolKind && a.key.id != "" && a.r.ToolDone? && a.otherwise == None
    ensures exists raw, isError ::
      ToolResultContent(a.key.id, raw, isError) in cs && Stored(raw, isError, a.r.result)
    decreases |cs|
  {
    var n := |cs| - 1;
    if a in AllUser(cs[..n]) {
      UserResponds(cs[..n], a);
      var raw, isError :| ToolResultContent(a.key.id, raw, isError) in cs[..n] && Stored(raw, isError, a.r.result);
    } else {
      StoredIs(cs[n].raw, cs[n].isError);
      assert ToolResultContent(a.key.id, cs[n].raw, cs[n].isError) in cs;
    }
  }

  lemma RegistersAsked(e: Event, now: int, a: Atom, id: string)
    requires a in Atoms(e, now) && a.Register? && (a.id.Some? ==> a.id.value == id)
    ensures Asks(e, Named(a.b, id))
  {
    if e.Assistant? {
      ContentRegisters(e.content, a);
    } else if e.UserBlocks? {
      UserResponds(e.blocks, a);
    }
  }

  lemma RespondsAnswer(e: Event, now: int, a: Atom, b: Block)
    requires a in Atoms(e, now) && a.Respond? && BlockKey(b) == Some(a.key)
    ensures AnswersWith(e, Attach(b, a.r))
  {
    match e {
      case Assistant(content, at) => ContentRegisters(content, a);
      case UserBlocks(blocks) => UserResponds(blocks, a);
      case PermissionResolved(id, behavior) => DecisionIs(behavior);
      case _ =>
    }
  }

  lemma OtherwiseAnswers(e: Event, now: int, a: Atom)
    requires a in Atoms(e, now) && a.Respond? && a.otherwise.Some?
    ensures AnswersWith(e, a.otherwise.value)
    ensures e.HookResponse? && a.otherwise.value.Hook?
    ensures a.otherwise.value.hookName == (if e.hookName.Some? then e.hookName.value else "?")
  {
    if e.Assistant? {
      ContentRegisters(e.content, a);
    } else if e.UserBlocks? {
      UserResponds(e.blocks, a);
    }
  }

  // ----- whole streams

  /** The block before it was answered. */
  function AsAsked(b: Block): (a: Block) {
    match b
    case Permission(id, details, _) => Permission(id, details, Pending)
    case Hook(id, name, _, _) => Hook(id, name, HookPending, None)
    case Tool(id, name, input, _) => Tool(id, name, input, None)
    case _ => b
  }

  ghost predicate Says(events: seq<Event>, b: Block) {
    || ((exists i :: 0 <= i < |events| && Asks(events[i], AsAsked(b)))
        && (b == AsAsked(b) || exists j :: 0 <= j < |events| && AnswersWith(events[j], b)))
    || (b.Hook? && exists j :: 0 <= j < |events| && AnswersWith(events[j], b)
                               && b.hookName == Or(events[j].hookName, "?"))
  }

  lemma AttachKeepsAsked(b: Block, r: Response)
    ensures AsAsked(Attach(b, r)) == AsAsked(b)
  {
  }

  lemma AskedIsAsked(e: Event, b: Block)
    requires Asks(e, b)
    ensures AsAsked(b) == b
  {
  }

  /** Every tool, hook and permission block that a stream of events leaves shows what one event asked for; and it is
      as it was asked for, or as one event answered it: with its decision, its exit status, its result.  Only a hook
      may be shown that was not asked for, by the event that answers it. */
  lemma EveryBlockSays(events: seq<Event>, now: int, atoms: seq<Atom>, blocks: seq<Block>, k: nat)
    requires atoms == AllAtoms(events, now) && blocks == Finish(Fold(atoms), now)
    requires k < |blocks| && BlockKey(blocks[k]).Some?
    ensures Says(events, blocks[k])
  {
    EveryBlockExplained(events, now, atoms, blocks, k);
    var i: nat, j: nat :| Explained(atoms, k, blocks[k], i) && OfEvent(events, now, j, atoms[i]);
    EventsOk(events, now);
    if atoms[i].Register? {
      RegisteredSays(events, now, atoms, i, j, blocks[k]);
    } else {
      OtherwiseAnswers(events[j], now, atoms[i]);
    }
  }

  lemma AskedSays(events: seq<Event>, j: nat, b: Block)
    requires j < |events| && Asks(events[j], b)
    ensures Says(events, b)
  {
    AskedIsAsked(events[j], b);
  }

  lemma AnsweredSays(events: seq<Event>, now: int, j: nat, pushed: Block, a: Atom, b: Block)
    requires j < |events| && Asks(events[j], pushed) && a in AllAtoms(events, now) && a.Respond?
    requires BlockKey(pushed) == Some(a.key) && b == Attach(pushed, a.r)
    ensures Says(events, b)
  {
    AskedIsAsked(events[j], pushed);
    AttachKeepsAsked(pushed, a.r);
    AtomOfEvent(events, now, a);
    var l: nat :| OfEvent(events, now, l, a);
    RespondsAnswer(events[l], now, a, pushed);
    BothSay(events, j, l, b);
  }

  lemma BothSay(events: seq<Event>, j: nat, l: nat, b: Block)
    requires j < |events| && l < |events| && Asks(events[j], AsAsked(b)) && AnswersWith(events[l], b)
    ensures Says(events, b)
  {
  }

  lemma RegisteredSays(events: seq<Event>, now: int, atoms: seq<Atom>, i: nat, j: nat, b: Block)
    requires atoms == AllAtoms(events, now) && AtomsOk(atoms) && i < |atoms| && atoms[i].Register?
    requires OfEvent(events, now, j, atoms[i]) && EndsAs(atoms, i, b)
    ensures Says(events, b)
  {
    var pushed, last := Pushed(atoms, i), LastAnswer(atoms, i, |atoms|);
    RegistersAsked(events[j], now, atoms[i], ChooseId(Fold(atoms[..i]), atoms[i].id));
    if last.Some? {
      NamedKey(Fold(atoms[..i]), atoms[i]);
      AnsweredSays(events, now, j, pushed, atoms[last.value], b);
    } else {
      AskedSays(events, j, b);
    }
  }

  /** What ends a turn, and the plain blocks, are pushed as the event says. */
  lemma PlainBlocks(e: Event, now: int)
    ensures e.ResultEvent? ==> exists b :: Atoms(e, now) == [CloseTurn(b)] && TurnEnd(e, b)
    ensures e.UserPrompt? ==> Atoms(e, now) == [Append(Prompt(e.text))]
    ensures e.UserText? ==> Atoms(e, now) == if e.cleaned == "" then [] else [Append(Prompt(e.cleaned))]
    ensures e.SdkError? ==>
      Atoms(e, now) == [Append(Error(if e.error.Some? then e.error.value else "sdk error"))]
    ensures e.Init? ==>
      Atoms(e, now) == if e.sessionId == "" then []
                       else [StartTurn(e.sessionId, if e.receivedAt.Some? then e.receivedAt.value else now)]
    ensures e.OtherEvent? ==> Atoms(e, now) == []
  {
    if e.ResultEvent? {
      TurnEndIs(e);
    }
  }

  /** A tool use without an id is numbered by its place in the list. */
  lemma NumberedByPlace(atoms: seq<Atom>, i: nat)
    requires i < |atoms| && atoms[i].Register? && atoms[i].id == None && atoms[i].b.Tool?
    ensures Pushed(atoms, i).Tool?
    ensures exists n :: IsNumeral(n, Place(atoms, i)) && Pushed(atoms, i).toolUseId == "tool-" + n
  {
    DecimalInverse(Place(atoms, i));
    assert IsNumeral(Decimal(Place(atoms, i)), Place(atoms, i));
  }

  /** The first content of a turn that began at `t` shows a thought if it came after 1500 ms or more, for just as
      long as that; and so does the end of the stream, as one that goes on. */
  lemma ThoughtIff(s: State, t: int, at: int)
    requires s.turnStartedAt == Some(t) && !s.turnHasContent
    ensures Step(s, FirstContent(at)).blocks == s.blocks + if at - t >= 1500 then [Thinking(at - t, false)] else []
    ensures Finish(s, at) == s.blocks + if at - t >= 1500 then [Thinking(at - t, true)] else []
    ensures Step(s, FirstContent(at)).turnHasContent && Finish(Step(s, FirstContent(at)), at + 1500) ==
            Step(s, FirstContent(at)).blocks
  {
  }
}
