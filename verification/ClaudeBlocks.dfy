/** From Claude's event stream to UI blocks in one pass (`processClaude.ts`). */
module ClaudeBlocks {
  import opened Strings
  import opened Wrappers

  const THINKING_MIN_MS: int := 1500
  const RESULT_FULL_CAP: nat := 8000

  datatype HookStatus = HookPending | HookOk | HookFail

  datatype PermissionStatus = Pending | Allowed | Denied | AlwaysAllowed

  datatype ToolResult = ToolResult(fullText: string, truncated: bool, isError: bool)

  datatype Block =
    | Session(sessionId: string)
    | Hook(hookId: string, hookName: string, hookStatus: HookStatus, exitCode: Option<int>)
    | Thinking(elapsedMs: int, ongoing: bool)
    | Prompt(prompt: string)
    | Permission(requestId: string, details: string, status: PermissionStatus)
    | Text(text: string)
    | Tool(toolUseId: string, name: string, input: string, result: Option<ToolResult>)
    | Result(numTurns: int, isError: bool, errorText: Option<string>)
    | Error(message: string)

  // ----- events, as far as they are looked at

  datatype Content = TextContent(text: string) | ToolUse(id: Option<string>, name: string, input: string) | OtherContent

  datatype UserContent = ToolResultContent(toolUseId: string, raw: string, isError: bool) | OtherUserContent

  /** A missing string is empty, where the source does not tell the two apart. */
  datatype Event =
    | UserPrompt(text: string)
    | PermissionRequest(requestId: string, details: string)
    | PermissionResolved(requestId: string, behavior: string)
    | Init(sessionId: string, receivedAt: Option<int>)
    | HookStarted(hookId: string, hookName: Option<string>)
    | HookResponse(hookId: string, hookName: Option<string>, outcome: string, exitCode: Option<int>)
    | Assistant(content: seq<Content>, receivedAt: Option<int>)
    | UserText(cleaned: string)
    | UserBlocks(blocks: seq<UserContent>)
    | ResultEvent(numTurns: Option<int>, isError: bool, subtype: Option<string>, text: string, apiStatus: string)
    | SdkError(error: Option<string>)
    | OtherEvent

  // ----- the specification: a fold over atoms

  datatype Kind = HookKind | ToolKind | PermissionKind

  /** What responses are matched by. */
  datatype Key = Key(kind: Kind, id: string)

  datatype Response =
    | HookDone(hookStatus: HookStatus, exitCode: Option<int>)
    | ToolDone(result: ToolResult)
    | Decided(status: PermissionStatus)

  /** The elementary effects of events.  `Register` pushes a block that can be responded to, `Respond` looks
      for one. */
  datatype Atom =
    | Append(b: Block)
    | StartTurn(sessionId: string, at: int)
    | FirstContent(at: int)
    | CloseTurn(b: Block)
    | Register(kind: Kind, id: Option<string>, b: Block)
    | Respond(key: Key, r: Response, otherwise: Option<Block>)

  datatype State = State(
    blocks: seq<Block>,
    hooks: map<string, nat>,
    tools: map<string, nat>,
    permissions: map<string, nat>,
    turnStartedAt: Option<int>,
    turnHasContent: bool)

  function Start(): (s: State) {
    State([], map[], map[], map[], None, false)
  }

  function Entries(s: State, kind: Kind): (m: map<string, nat>) {
    match kind
    case HookKind => s.hooks
    case ToolKind => s.tools
    case PermissionKind => s.permissions
  }

  function Lookup(s: State, key: Key): (k: Option<nat>) {
    if key.id in Entries(s, key.kind) then Some(Entries(s, key.kind)[key.id]) else None
  }

  function SetEntry(s: State, key: Key, k: nat): (s': State) {
    match key.kind
    case HookKind => s.(hooks := s.hooks[key.id := k])
    case ToolKind => s.(tools := s.tools[key.id := k])
    case PermissionKind => s.(permissions := s.permissions[key.id := k])
  }

  function BlockKey(b: Block): (key: Option<Key>) {
    match b
    case Hook(id, _, _, _) => Some(Key(HookKind, id))
    case Tool(id, _, _, _) => Some(Key(ToolKind, id))
    case Permission(id, _, _) => Some(Key(PermissionKind, id))
    case _ => None
  }

  /** A tool use without an id is numbered by the length of the list it joins. */
  function ChooseId(s: State, id: Option<string>): (chosen: string) {
    if id.Some? then id.value else "tool-" + Decimal(|s.blocks|)
  }

  function Named(b: Block, id: string): (b': Block) {
    if b.Tool? then b.(toolUseId := id) else b
  }

  /** A block of the wrong kind stays as it is. */
  function Attach(b: Block, r: Response): (b': Block) {
    match r
    case HookDone(status, exitCode) => if b.Hook? then b.(hookStatus := status, exitCode := exitCode) else b
    case ToolDone(result) => if b.Tool? then b.(result := Some(result)) else b
    case Decided(status) => if b.Permission? then b.(status := status) else b
  }

  function Push(s: State, b: Block): (s': State) {
    s.(blocks := s.blocks + [b])
  }

  function InsertThinking(s: State, at: int): (s': State) {
    if s.turnStartedAt.None? || s.turnHasContent then s
    else
      var elapsed := at - s.turnStartedAt.value;
      (if elapsed >= THINKING_MIN_MS then Push(s, Thinking(elapsed, false)) else s).(turnHasContent := true)
  }

  function ApplyResponse(s: State, key: Key, r: Response, otherwise: Option<Block>): (s': State) {
    match Lookup(s, key)
    case Some(k) => if k < |s.blocks| then s.(blocks := s.blocks[k := Attach(s.blocks[k], r)]) else s
    case None => if otherwise.Some? then Push(s, otherwise.value) else s
  }

  function Step(s: State, a: Atom): (s': State) {
    match a
    case Append(b) => Push(s, b)
    case StartTurn(sessionId, at) => Push(s, Session(sessionId)).(turnStartedAt := Some(at), turnHasContent := false)
    case FirstContent(at) => InsertThinking(s, at)
    case CloseTurn(b) => Push(s, b).(turnStartedAt := None, turnHasContent := true)
    case Register(kind, id, b) =>
      var chosen := ChooseId(s, id);
      SetEntry(Push(s, Named(b, chosen)), Key(kind, chosen), |s.blocks|)
    case Respond(key, r, otherwise) => ApplyResponse(s, key, r, otherwise)
  }

  function Fold(atoms: seq<Atom>): (s: State)
    decreases |atoms|
  {
    if atoms == [] then Start() else Step(Fold(atoms[..|atoms| - 1]), atoms[|atoms| - 1])
  }

  /** The block still open at the end, if any. */
  function Finish(s: State, now: int): (blocks: seq<Block>) {
    if s.turnStartedAt.Some? && !s.turnHasContent && now - s.turnStartedAt.value >= THINKING_MIN_MS
    then s.blocks + [Thinking(now - s.turnStartedAt.value, true)]
    else s.blocks
  }

  // ----- from events to atoms

  function Or<T>(a: Option<T>, b: T): (r: T) {
    if a.Some? then a.value else b
  }

  function BehaviorStatus(behavior: string): (status: PermissionStatus) {
    if behavior == "always-allow" then AlwaysAllowed else if behavior == "allow" then Allowed else Denied
  }

  function ExitStatus(outcome: string, exitCode: Option<int>): (status: HookStatus) {
    if outcome == "success" && Or(exitCode, 0) == 0 then HookOk else HookFail
  }

  function StoredResult(raw: string, isError: bool): (r: ToolResult) {
    if |raw| > RESULT_FULL_CAP
    then
      var more := Decimal(|raw| - RESULT_FULL_CAP);
      ToolResult(raw[..RESULT_FULL_CAP] + "\n\n\U{2026} [truncated, " + more + " more chars]", true, isError)
    else ToolResult(raw, false, isError)
  }

  function ResultBlock(e: Event): (b: Block)
    requires e.ResultEvent?
  {
    var failed := e.isError || (e.subtype.Some? && e.subtype.value != "success");
    var subtype := Or(e.subtype, "");
    var reason := if e.text != "" then e.text else if e.apiStatus != "" then e.apiStatus
                  else if subtype != "" then subtype else "unknown error";
    Result(Or(e.numTurns, 0), failed, if failed then Some(reason) else None)
  }

  function ContentAtoms(c: Content): (atoms: seq<Atom>) {
    match c
    case TextContent(text) => [Append(Text(text))]
    case ToolUse(id, name, input) => if name == "" then [] else [Register(ToolKind, id, Tool("", name, input, None))]
    case OtherContent => []
  }

  function UserAtoms(c: UserContent): (atoms: seq<Atom>) {
    match c
    case ToolResultContent(id, raw, isError) =>
      if id == "" then [] else [Respond(Key(ToolKind, id), ToolDone(StoredResult(raw, isError)), None)]
    case OtherUserContent => []
  }

  function AllContent(cs: seq<Content>): (atoms: seq<Atom>)
    decreases |cs|
  {
    if cs == [] then [] else AllContent(cs[..|cs| - 1]) + ContentAtoms(cs[|cs| - 1])
  }

  function AllUser(cs: seq<UserContent>): (atoms: seq<Atom>)
    decreases |cs|
  {
    if cs == [] then [] else AllUser(cs[..|cs| - 1]) + UserAtoms(cs[|cs| - 1])
  }

  function Atoms(e: Event, now: int): (atoms: seq<Atom>) {
    match e
    case UserPrompt(text) => [Append(Prompt(text))]
    case PermissionRequest(id, details) => [Register(PermissionKind, Some(id), Permission(id, details, Pending))]
    case PermissionResolved(id, behavior) => [Respond(Key(PermissionKind, id), Decided(BehaviorStatus(behavior)), None)]
    case Init(sessionId, at) => if sessionId == "" then [] else [StartTurn(sessionId, Or(at, now))]
    case HookStarted(id, name) =>
      if id == "" then [] else [Register(HookKind, Some(id), Hook(id, Or(name, "?"), HookPending, None))]
    case HookResponse(id, name, outcome, exitCode) =>
      if id == "" then []
      else
        var status := ExitStatus(outcome, exitCode);
        [Respond(Key(HookKind, id), HookDone(status, exitCode), Some(Hook(id, Or(name, "?"), status, exitCode)))]
    case Assistant(content, at) => [FirstContent(Or(at, now))] + AllContent(content)
    case UserText(cleaned) => if cleaned == "" then [] else [Append(Prompt(cleaned))]
    case UserBlocks(blocks) => AllUser(blocks)
    case ResultEvent(_, _, _, _, _) => [CloseTurn(ResultBlock(e))]
    case SdkError(error) => [Append(Error(Or(error, "sdk error")))]
    case OtherEvent => []
  }

  function AllAtoms(events: seq<Event>, now: int): (atoms: seq<Atom>)
    decreases |events|
  {
    if events == [] then [] else AllAtoms(events[..|events| - 1], now) + Atoms(events[|events| - 1], now)
  }

  // ----- map entries point at blocks of their kind and id

  function ResponseKind(r: Response): (kind: Kind) {
    match r
    case HookDone(_, _) => HookKind
    case ToolDone(_) => ToolKind
    case Decided(_) => PermissionKind
  }

  /** What is registered has the kind and the id it is registered under; what responds, the kind it is meant for;
      and nothing else pushes a block that can be responded to. */
  predicate AtomOk(a: Atom) {
    match a
    case Register(kind, id, b) =>
      (id.None? ==> kind == ToolKind) && BlockKey(Named(b, Or(id, ""))) == Some(Key(kind, Or(id, "")))
    case Respond(key, r, otherwise) =>
      ResponseKind(r) == key.kind && (otherwise.Some? ==> BlockKey(otherwise.value) == Some(key))
    case Append(b) => BlockKey(b) == None
    case CloseTurn(b) => BlockKey(b) == None
    case _ => true
  }

  predicate AtomsOk(atoms: seq<Atom>) {
    forall i :: 0 <= i < |atoms| ==> AtomOk(atoms[i])
  }

  lemma {:induction false} ContentOk(cs: seq<Content>)
    ensures AtomsOk(AllContent(cs))
    decreases |cs|
  {
    if cs != [] {
      ContentOk(cs[..|cs| - 1]);
    }
  }

  lemma {:induction false} UserOk(cs: seq<UserContent>)
    ensures AtomsOk(AllUser(cs))
    decreases |cs|
  {
    if cs != [] {
      UserOk(cs[..|cs| - 1]);
    }
  }

  lemma EventOk(e: Event, now: int)
    ensures AtomsOk(Atoms(e, now))
  {
    match e {
      case Assistant(content, _) => ContentOk(content);
      case UserBlocks(blocks) => UserOk(blocks);
      case _ =>
    }
  }

  lemma {:induction false} EventsOk(events: seq<Event>, now: int)
    ensures AtomsOk(AllAtoms(events, now))
    decreases |events|
  {
    if events != [] {
      EventsOk(events[..|events| - 1], now);
      EventOk(events[|events| - 1], now);
    }
  }

  predicate EntryOk(s: State, key: Key) {
    Lookup(s, key).Some? ==> Lookup(s, key).value < |s.blocks| && BlockKey(s.blocks[Lookup(s, key).value]) == Some(key)
  }

  ghost predicate IndexOk(s: State) {
    forall key :: EntryOk(s, key)
  }

  lemma AttachKeepsKey(b: Block, r: Response)
    ensures BlockKey(Attach(b, r)) == BlockKey(b)
  {
  }

  lemma NamedKey(s: State, a: Atom)
    requires a.Register? && AtomOk(a)
    ensures BlockKey(Named(a.b, ChooseId(s, a.id))) == Some(Key(a.kind, ChooseId(s, a.id)))
  {
  }

  /** Where an entry of the index stands after a step. */
  lemma LookupStep(s: State, a: Atom, key: Key)
    ensures Lookup(Step(s, a), key) ==
      if a.Register? && Key(a.kind, ChooseId(s, a.id)) == key then Some(|s.blocks|) else Lookup(s, key)
  {
  }

  /** Blocks are only appended, or replaced by one of the same kind and id. */
  lemma BlocksKeepKeys(s: State, a: Atom, k: nat)
    requires k < |s.blocks|
    ensures k < |Step(s, a).blocks| && BlockKey(Step(s, a).blocks[k]) == BlockKey(s.blocks[k])
  {
    if a.Respond? && Lookup(s, a.key).Some? && Lookup(s, a.key).value == k {
      AttachKeepsKey(s.blocks[k], a.r);
    }
  }

  lemma EntryStep(s: State, a: Atom, key: Key)
    requires IndexOk(s) && AtomOk(a)
    ensures EntryOk(Step(s, a), key)
  {
    assert EntryOk(s, key);
    LookupStep(s, a, key);
    if Lookup(Step(s, a), key) == Lookup(s, key) {
      if Lookup(s, key).Some? {
        BlocksKeepKeys(s, a, Lookup(s, key).value);
      }
    } else {
      NamedKey(s, a);
    }
  }

  lemma {:induction false} IndexAlwaysOk(atoms: seq<Atom>)
    requires AtomsOk(atoms)
    ensures IndexOk(Fold(atoms))
    decreases |atoms|
  {
    if atoms == [] {
      forall key
        ensures EntryOk(Start(), key)
      {
      }
    } else {
      var n := |atoms| - 1;
      IndexAlwaysOk(atoms[..n]);
      forall key
        ensures EntryOk(Fold(atoms), key)
      {
        EntryStep(Fold(atoms[..n]), atoms[n], key);
      }
    }
  }

  // ----- the last matching response wins

  /** The key that atom `i` registers, with the id it is given. */
  function KeyAt(atoms: seq<Atom>, i: nat): (key: Option<Key>)
    requires i < |atoms|
  {
    if atoms[i].Register? then Some(Key(atoms[i].kind, ChooseId(Fold(atoms[..i]), atoms[i].id))) else None
  }

  /** Before atom `n`, a later block was registered under the key of atom `i`. */
  predicate Superseded(atoms: seq<Atom>, i: nat, n: nat)
    requires i < |atoms| && n <= |atoms|
  {
    exists m :: i < m < n && KeyAt(atoms, m) == KeyAt(atoms, i)
  }

  predicate Answers(atoms: seq<Atom>, i: nat, j: nat)
    requires i < |atoms| && j < |atoms|
  {
    i < j && atoms[j].Respond? && Some(atoms[j].key) == KeyAt(atoms, i) && !Superseded(atoms, i, j)
  }

  /** The last answer to atom `i` among the first `n` atoms. */
  function LastAnswer(atoms: seq<Atom>, i: nat, n: nat): (j: Option<nat>)
    requires i < n <= |atoms|
    ensures j.Some? ==> j.value < n && Answers(atoms, i, j.value)
    ensures forall k :: i < k < n && (j.Some? ==> j.value < k) ==> !Answers(atoms, i, k)
  {
    if n == i + 1 then None else if Answers(atoms, i, n - 1) then Some(n - 1) else LastAnswer(atoms, i, n - 1)
  }

  /** The block that atom `i` pushes, and where. */
  function Pushed(atoms: seq<Atom>, i: nat): (b: Block)
    requires i < |atoms| && atoms[i].Register?
  {
    Named(atoms[i].b, ChooseId(Fold(atoms[..i]), atoms[i].id))
  }

  function Place(atoms: seq<Atom>, i: nat): (k: nat)
    requires i < |atoms|
  {
    |Fold(atoms[..i]).blocks|
  }

  function Answered(b: Block, atoms: seq<Atom>, j: Option<nat>): (b': Block)
    requires j.Some? ==> j.value < |atoms| && atoms[j.value].Respond?
  {
    if j.None? then b else Attach(b, atoms[j.value].r)
  }

  lemma FoldStep(atoms: seq<Atom>, m: nat, n: nat)
    requires m < |atoms| && n == m + 1
    ensures Fold(atoms[..n]) == Step(Fold(atoms[..m]), atoms[m])
  {
    assert atoms[..n][..m] == atoms[..m];
  }

  lemma AttachTwice(b: Block, r: Response, later: Response)
    requires ResponseKind(r) == ResponseKind(later)
    ensures Attach(Attach(b, r), later) == Attach(b, later)
  {
  }

  lemma SupersededStep(atoms: seq<Atom>, i: nat, m: nat, n: nat)
    requires i < m < |atoms| && n == m + 1
    ensures Superseded(atoms, i, n) <==> Superseded(atoms, i, m) || KeyAt(atoms, m) == KeyAt(atoms, i)
  {
  }

  /** A block only changes by a response to its own key, while the index points at it. */
  lemma BlockStep(s: State, a: Atom, k: nat, key: Key)
    requires IndexOk(s) && AtomOk(a) && k < |s.blocks| && BlockKey(s.blocks[k]) == Some(key)
    ensures k < |Step(s, a).blocks|
    ensures Step(s, a).blocks[k] ==
      if a.Respond? && a.key == key && Lookup(s, key) == Some(k) then Attach(s.blocks[k], a.r) else s.blocks[k]
  {
    if a.Respond? {
      assert EntryOk(s, a.key);
    }
  }

  predicate Tracked(atoms: seq<Atom>, i: nat, n: nat)
    requires i < n <= |atoms| && atoms[i].Register?
  {
    var s, k := Fold(atoms[..n]), Place(atoms, i);
    && k < |s.blocks| && s.blocks[k] == Answered(Pushed(atoms, i), atoms, LastAnswer(atoms, i, n))
    && (Lookup(s, KeyAt(atoms, i).value) == Some(k) <==> !Superseded(atoms, i, n))
  }

  lemma TrackedFirst(atoms: seq<Atom>, i: nat)
    requires AtomsOk(atoms) && i < |atoms| && atoms[i].Register?
    ensures Tracked(atoms, i, i + 1)
  {
    FoldStep(atoms, i, i + 1);
    LookupStep(Fold(atoms[..i]), atoms[i], KeyAt(atoms, i).value);
    assert !Superseded(atoms, i, i + 1);
  }

  lemma TrackedStep(atoms: seq<Atom>, i: nat, m: nat, n: nat)
    requires AtomsOk(atoms) && i < m < |atoms| && n == m + 1 && atoms[i].Register? && Tracked(atoms, i, m)
    ensures Tracked(atoms, i, n)
  {
    var s, k, key := Fold(atoms[..m]), Place(atoms, i), KeyAt(atoms, i).value;
    IndexAlwaysOk(atoms[..m]);
    FoldStep(atoms, m, n);
    NamedKey(Fold(atoms[..i]), atoms[i]);
    var j := LastAnswer(atoms, i, m);
    if j.Some? {
      AttachKeepsKey(Pushed(atoms, i), atoms[j.value].r);
    }
    assert BlockKey(s.blocks[k]) == Some(key);
    BlockStep(s, atoms[m], k, key);
    LookupStep(s, atoms[m], key);
    SupersededStep(atoms, i, m, n);
    LastAnswerStep(atoms, i, m, n);
    if Answers(atoms, i, m) && j.Some? {
      AttachTwice(Pushed(atoms, i), atoms[j.value].r, atoms[m].r);
    }
  }

  lemma LastAnswerStep(atoms: seq<Atom>, i: nat, m: nat, n: nat)
    requires i < m < |atoms| && n == m + 1
    ensures LastAnswer(atoms, i, n) == if Answers(atoms, i, m) then Some(m) else LastAnswer(atoms, i, m)
  {
  }

  lemma {:induction false} TrackedAlways(atoms: seq<Atom>, i: nat, n: nat)
    requires AtomsOk(atoms) && i < n <= |atoms| && atoms[i].Register?
    ensures Tracked(atoms, i, n)
    decreases n
  {
    if n == i + 1 {
      TrackedFirst(atoms, i);
    } else {
      var m := n - 1;
      TrackedAlways(atoms, i, m);
      TrackedStep(atoms, i, m, n);
    }
  }

  /** Every tool, hook and permission block ends with the last response to its key that came after it and
      before the next block with that key; without one it stays as it was pushed. */
  lemma LastAnswerWins(atoms: seq<Atom>, i: nat)
    requires AtomsOk(atoms) && i < |atoms| && atoms[i].Register?
    ensures Place(atoms, i) < |Fold(atoms).blocks|
    ensures Fold(atoms).blocks[Place(atoms, i)] == Answered(Pushed(atoms, i), atoms, LastAnswer(atoms, i, |atoms|))
  {
    TrackedAlways(atoms, i, |atoms|);
    assert atoms[..|atoms|] == atoms;
  }

  // ----- other blocks, and the shape of the list

  predicate SameButAnswer(b: Block, c: Block) {
    c == b || (BlockKey(b).Some? && BlockKey(c) == BlockKey(b))
  }

  lemma SameStep(s: State, a: Atom, k: nat)
    requires k < |s.blocks|
    ensures k < |Step(s, a).blocks| && SameButAnswer(s.blocks[k], Step(s, a).blocks[k])
  {
    BlocksKeepKeys(s, a, k);
  }

  /** Nothing is ever removed or moved; prompts, texts, results and the like never change. */
  lemma {:induction false} OnlyAppendsOrAnswers(atoms: seq<Atom>, n: nat, k: nat)
    requires n <= |atoms| && k < |Fold(atoms[..n]).blocks|
    ensures k < |Fold(atoms).blocks|
    ensures SameButAnswer(Fold(atoms[..n]).blocks[k], Fold(atoms).blocks[k])
    decreases |atoms| - n
  {
    if n == |atoms| {
      assert atoms[..n] == atoms;
    } else {
      FoldStep(atoms, n, n + 1);
      SameStep(Fold(atoms[..n]), atoms[n], k);
      OnlyAppendsOrAnswers(atoms, n + 1, k);
    }
  }

  predicate NobodyPointsAt(s: State, k: nat) {
    forall kind, id :: id in Entries(s, kind) ==> Entries(s, kind)[id] != k
  }

  lemma NobodyPointsStep(s: State, a: Atom, k: nat)
    requires k < |s.blocks| && NobodyPointsAt(s, k)
    ensures k < |Step(s, a).blocks| && Step(s, a).blocks[k] == s.blocks[k] && NobodyPointsAt(Step(s, a), k)
  {
    forall kind, id | id in Entries(Step(s, a), kind)
      ensures Entries(Step(s, a), kind)[id] != k
    {
      LookupStep(s, a, Key(kind, id));
      assert id in Entries(s, kind) ==> Entries(s, kind)[id] != k;
    }
  }

  /** A hook block that only its response announced is in no map, so nothing ever changes it again. */
  lemma {:induction false} UnannouncedStays(atoms: seq<Atom>, n: nat, k: nat)
    requires n <= |atoms| && k < |Fold(atoms[..n]).blocks| && NobodyPointsAt(Fold(atoms[..n]), k)
    ensures k < |Fold(atoms).blocks| && Fold(atoms).blocks[k] == Fold(atoms[..n]).blocks[k]
    decreases |atoms| - n
  {
    if n == |atoms| {
      assert atoms[..n] == atoms;
    } else {
      FoldStep(atoms, n, n + 1);
      NobodyPointsStep(Fold(atoms[..n]), atoms[n], k);
      UnannouncedStays(atoms, n + 1, k);
    }
  }

  lemma UnannouncedIsUnregistered(atoms: seq<Atom>, n: nat)
    requires AtomsOk(atoms) && n < |atoms| && atoms[n].Respond? && atoms[n].otherwise.Some?
    requires Lookup(Fold(atoms[..n]), atoms[n].key).None?
    ensures var k, s := |Fold(atoms[..n]).blocks|, Fold(atoms[..n + 1]);
      |s.blocks| == k + 1 && s.blocks[k] == atoms[n].otherwise.value && NobodyPointsAt(s, k)
  {
    FoldStep(atoms, n, n + 1);
    IndexAlwaysOk(atoms[..n]);
    var s, s' := Fold(atoms[..n]), Fold(atoms[..n + 1]);
    forall kind, id | id in Entries(s', kind)
      ensures Entries(s', kind)[id] != |s.blocks|
    {
      LookupStep(s, atoms[n], Key(kind, id));
      assert EntryOk(s, Key(kind, id));
    }
  }

  // ----- where the blocks that can be answered come from

  /** Atom `i` is a response that pushes its own block, for want of one that waits for it. */
  predicate Unannounced(atoms: seq<Atom>, i: nat)
    requires i < |atoms|
  {
    atoms[i].Respond? && atoms[i].otherwise.Some? && Lookup(Fold(atoms[..i]), atoms[i].key) == None
  }

  predicate Origin(atoms: seq<Atom>, i: nat, k: nat) {
    i < |atoms| && Place(atoms, i) == k && (atoms[i].Register? || Unannounced(atoms, i))
  }

  /** A step pushes one block at most; one that can be answered only by registering it, or by a response. */
  lemma PushesStep(s: State, a: Atom, k: nat)
    requires AtomOk(a) && |s.blocks| <= k < |Step(s, a).blocks| && BlockKey(Step(s, a).blocks[k]).Some?
    ensures k == |s.blocks| && (a.Register? || (a.Respond? && a.otherwise.Some? && Lookup(s, a.key) == None))
  {
  }

  lemma {:induction false} HasOrigin(atoms: seq<Atom>, n: nat, k: nat)
    requires AtomsOk(atoms) && n <= |atoms|
    requires k < |Fold(atoms[..n]).blocks| && BlockKey(Fold(atoms[..n]).blocks[k]).Some?
    ensures exists i :: Origin(atoms, i, k)
    decreases n
  {
    if n > 0 {
      var m := n - 1;
      FoldStep(atoms, m, n);
      if k < |Fold(atoms[..m]).blocks| {
        BlocksKeepKeys(Fold(atoms[..m]), atoms[m], k);
        HasOrigin(atoms, m, k);
      } else {
        PushesStep(Fold(atoms[..m]), atoms[m], k);
        assert Origin(atoms, m, k);
      }
    }
  }

  /** What the block that atom `i` pushed ends as: the last answer before the next block with its key, or what
      an unannounced response pushed. */
  predicate EndsAs(atoms: seq<Atom>, i: nat, b: Block)
    requires i < |atoms|
  {
    if atoms[i].Register? then b == Answered(Pushed(atoms, i), atoms, LastAnswer(atoms, i, |atoms|))
    else atoms[i].Respond? && atoms[i].otherwise == Some(b)
  }

  lemma OriginDecides(atoms: seq<Atom>, i: nat, k: nat)
    requires AtomsOk(atoms) && Origin(atoms, i, k)
    ensures k < |Fold(atoms).blocks| && EndsAs(atoms, i, Fold(atoms).blocks[k])
  {
    if atoms[i].Register? {
      LastAnswerWins(atoms, i);
    } else {
      UnannouncedIsUnregistered(atoms, i);
      UnannouncedStays(atoms, i + 1, k);
    }
  }

  predicate OfEvent(events: seq<Event>, now: int, j: nat, a: Atom) {
    j < |events| && a in Atoms(events[j], now)
  }

  lemma {:induction false} AtomOfEvent(events: seq<Event>, now: int, a: Atom)
    requires a in AllAtoms(events, now)
    ensures exists j: nat :: OfEvent(events, now, j, a)
    decreases |events|
  {
    var n := |events| - 1;
    if a in AllAtoms(events[..n], now) {
      AtomOfEvent(events[..n], now, a);
      var j: nat :| OfEvent(events[..n], now, j, a);
      assert OfEvent(events, now, j, a);
    } else {
      assert OfEvent(events, now, n, a);
    }
  }

  predicate Explained(atoms: seq<Atom>, k: nat, b: Block, i: nat) {
    Origin(atoms, i, k) && EndsAs(atoms, i, b)
  }

  lemma BlockExplained(atoms: seq<Atom>, k: nat) returns (i: nat)
    requires AtomsOk(atoms) && k < |Fold(atoms).blocks| && BlockKey(Fold(atoms).blocks[k]).Some?
    ensures Explained(atoms, k, Fold(atoms).blocks[k], i)
  {
    assert atoms[..|atoms|] == atoms;
    HasOrigin(atoms, |atoms|, k);
    i :| Origin(atoms, i, k);
    OriginDecides(atoms, i, k);
  }

  lemma FinishOnlyAddsThought(s: State, now: int, k: nat)
    requires k < |Finish(s, now)| && BlockKey(Finish(s, now)[k]).Some?
    ensures k < |s.blocks| && Finish(s, now)[k] == s.blocks[k]
  {
  }

  /** In the list that a whole event stream gives, every tool, hook and permission block was pushed by one of the
      events: either by registering it, and then it shows the last response to it, or by a hook response that
      nobody waited for, and then it is as that response left it. */
  lemma EveryBlockExplained(events: seq<Event>, now: int, atoms: seq<Atom>, blocks: seq<Block>, k: nat)
    requires atoms == AllAtoms(events, now) && blocks == Finish(Fold(atoms), now)
    requires k < |blocks| && BlockKey(blocks[k]).Some?
    ensures exists i: nat, j: nat :: Explained(atoms, k, blocks[k], i) && OfEvent(events, now, j, atoms[i])
  {
    EventsOk(events, now);
    FinishOnlyAddsThought(Fold(atoms), now, k);
    var i := BlockExplained(atoms, k);
    AtomOfEvent(events, now, atoms[i]);
    var j: nat :| OfEvent(events, now, j, atoms[i]);
    assert Explained(atoms, k, blocks[k], i) && OfEvent(events, now, j, atoms[i]);
  }

  // ----- thinking blocks

  function Thinkings(blocks: seq<Block>): (n: nat)
    decreases |blocks|
  {
    if blocks == [] then 0
    else Thinkings(blocks[..|blocks| - 1]) + if blocks[|blocks| - 1].Thinking? then 1 else 0
  }

  function Sessions(blocks: seq<Block>): (n: nat)
    decreases |blocks|
  {
    if blocks == [] then 0
    else Sessions(blocks[..|blocks| - 1]) + if blocks[|blocks| - 1].Session? then 1 else 0
  }

  lemma CountPush(blocks: seq<Block>, b: Block)
    ensures Thinkings(blocks + [b]) == Thinkings(blocks) + if b.Thinking? then 1 else 0
    ensures Sessions(blocks + [b]) == Sessions(blocks) + if b.Session? then 1 else 0
  {
    assert (blocks + [b])[..|blocks|] == blocks;
  }

  lemma {:induction false} CountReplace(blocks: seq<Block>, k: nat, b: Block)
    requires k < |blocks| && (b.Thinking? <==> blocks[k].Thinking?) && (b.Session? <==> blocks[k].Session?)
    ensures Thinkings(blocks[k := b]) == Thinkings(blocks) && Sessions(blocks[k := b]) == Sessions(blocks)
    decreases |blocks|
  {
    var n := |blocks| - 1;
    if k == n {
      assert blocks[k := b][..n] == blocks[..n];
    } else {
      assert blocks[k := b][..n] == blocks[..n][k := b];
      CountReplace(blocks[..n], k, b);
    }
  }

  function PendingTurn(s: State): (n: nat) {
    if s.turnStartedAt.Some? && !s.turnHasContent then 1 else 0
  }

  /** An atom that pushes a block of its own pushes neither kind. */
  predicate Neutral(b: Block) {
    !b.Thinking? && !b.Session?
  }

  predicate AtomNeutral(a: Atom) {
    match a
    case Append(b) => Neutral(b)
    case CloseTurn(b) => Neutral(b)
    case Register(_, _, b) => Neutral(b)
    case Respond(_, _, otherwise) => otherwise.Some? ==> Neutral(otherwise.value)
    case _ => true
  }

  /** Turns that have pushed no thinking block yet are paid for by their session block. */
  predicate Paid(s: State) {
    Thinkings(s.blocks) + PendingTurn(s) <= Sessions(s.blocks)
  }

  lemma PushPaid(s: State, b: Block)
    requires Paid(s) && Neutral(b)
    ensures Paid(Push(s, b))
  {
    CountPush(s.blocks, b);
  }

  lemma ResponsePaid(s: State, key: Key, r: Response, otherwise: Option<Block>)
    requires Paid(s) && (otherwise.Some? ==> Neutral(otherwise.value))
    ensures Paid(ApplyResponse(s, key, r, otherwise))
  {
    if Lookup(s, key).Some? {
      var k := Lookup(s, key).value;
      if k < |s.blocks| {
        CountReplace(s.blocks, k, Attach(s.blocks[k], r));
      }
    } else if otherwise.Some? {
      PushPaid(s, otherwise.value);
    }
  }

  lemma ThinkingPaid(s: State, at: int)
    requires Paid(s)
    ensures Paid(InsertThinking(s, at))
  {
    if s.turnStartedAt.Some? {
      CountPush(s.blocks, Thinking(at - s.turnStartedAt.value, false));
    }
  }

  lemma EntryPaid(s: State, key: Key, k: nat)
    requires Paid(s)
    ensures Paid(SetEntry(s, key, k))
  {
  }

  lemma PaidStep(s: State, a: Atom)
    requires AtomNeutral(a) && Paid(s)
    ensures Paid(Step(s, a))
  {
    match a {
      case Append(b) => PushPaid(s, b);
      case StartTurn(id, at) => CountPush(s.blocks, Session(id));
      case FirstContent(at) => ThinkingPaid(s, at);
      case CloseTurn(b) => PushPaid(s, b);
      case Register(kind, id, b) => {
        PushPaid(s, Named(b, ChooseId(s, id)));
        EntryPaid(Push(s, Named(b, ChooseId(s, id))), Key(kind, ChooseId(s, id)), |s.blocks|);
      }
      case Respond(key, r, otherwise) => ResponsePaid(s, key, r, otherwise);
    }
  }

  lemma {:induction false} ThinkingBounded(atoms: seq<Atom>)
    requires forall i :: 0 <= i < |atoms| ==> AtomNeutral(atoms[i])
    ensures Paid(Fold(atoms))
    decreases |atoms|
  {
    if atoms != [] {
      ThinkingBounded(atoms[..|atoms| - 1]);
      PaidStep(Fold(atoms[..|atoms| - 1]), atoms[|atoms| - 1]);
    }
  }

  predicate AllNeutral(atoms: seq<Atom>) {
    forall i :: 0 <= i < |atoms| ==> AtomNeutral(atoms[i])
  }

  lemma {:induction false} ContentNeutral(cs: seq<Content>)
    ensures AllNeutral(AllContent(cs))
    decreases |cs|
  {
    if cs != [] {
      ContentNeutral(cs[..|cs| - 1]);
    }
  }

  lemma {:induction false} UserNeutral(cs: seq<UserContent>)
    ensures AllNeutral(AllUser(cs))
    decreases |cs|
  {
    if cs != [] {
      UserNeutral(cs[..|cs| - 1]);
    }
  }

  lemma {:induction false} EventsNeutral(events: seq<Event>, now: int)
    ensures AllNeutral(AllAtoms(events, now))
    decreases |events|
  {
    if events != [] {
      var e := events[|events| - 1];
      EventsNeutral(events[..|events| - 1], now);
      match e {
        case Assistant(content, _) => ContentNeutral(content);
        case UserBlocks(blocks) => UserNeutral(blocks);
        case _ =>
      }
    }
  }

  /** There are never more thinking blocks, the running one included, than session blocks. */
  lemma ThinkingPerSession(events: seq<Event>, now: int)
    ensures var blocks := Finish(Fold(AllAtoms(events, now)), now);
      Thinkings(blocks) <= Sessions(blocks)
  {
    var s := Fold(AllAtoms(events, now));
    EventsNeutral(events, now);
    ThinkingBounded(AllAtoms(events, now));
    if s.turnStartedAt.Some? {
      CountPush(s.blocks, Thinking(now - s.turnStartedAt.value, true));
    }
  }

  // ----- the pass itself

  lemma FoldSnoc(atoms: seq<Atom>, a: Atom)
    ensures Fold(atoms + [a]) == Step(Fold(atoms), a)
  {
    assert (atoms + [a])[..|atoms|] == atoms;
  }

  lemma AllContentStep(cs: seq<Content>, i: nat, before: seq<Atom>)
    requires i < |cs|
    ensures before + AllContent(cs[..i + 1]) == before + AllContent(cs[..i]) + ContentAtoms(cs[i])
  {
    assert cs[..i + 1][..i] == cs[..i];
  }

  lemma AllUserStep(cs: seq<UserContent>, i: nat, before: seq<Atom>)
    requires i < |cs|
    ensures before + AllUser(cs[..i + 1]) == before + AllUser(cs[..i]) + UserAtoms(cs[i])
  {
    assert cs[..i + 1][..i] == cs[..i];
  }

  /** The variables that the pass and its inner function share; `done` is what they have been through. */
  class Processor {
    var blocks: seq<Block>
    var hookIdxById: map<string, nat>
    var toolIdxByUseId: map<string, nat>
    var permissionIdxByReqId: map<string, nat>
    var turnStartedAt: Option<int>
    var turnHasContent: bool
    ghost var done: seq<Atom>

    function Now(): (s: State)
      reads this
    {
      State(blocks, hookIdxById, toolIdxByUseId, permissionIdxByReqId, turnStartedAt, turnHasContent)
    }

    ghost predicate Valid()
      reads this
    {
      AtomsOk(done) && Now() == Fold(done)
    }

    constructor ()
      ensures Valid() && done == []
    {
      blocks, hookIdxById, toolIdxByUseId, permissionIdxByReqId := [], map[], map[], map[];
      turnStartedAt, turnHasContent := None, false;
      done := [];
    }

    ghost method Note(a: Atom)
      requires AtomOk(a) && AtomsOk(done) && Now() == Step(Fold(done), a)
      modifies `done
      ensures Valid() && done == old(done) + [a]
    {
      FoldSnoc(done, a);
      done := done + [a];
    }

    method PushPlain(b: Block)
      requires Valid() && BlockKey(b) == None
      modifies this
      ensures Valid() && done == old(done) + [Append(b)]
    {
      blocks := blocks + [b];
      Note(Append(b));
    }

    method MaybeInsertThinking(at: int)
      requires Valid()
      modifies this
      ensures Valid() && done == old(done) + [FirstContent(at)]
    {
      if turnStartedAt.Some? && !turnHasContent {
        var elapsed := at - turnStartedAt.value;
        if elapsed >= THINKING_MIN_MS {
          blocks := blocks + [Thinking(elapsed, false)];
        }
        turnHasContent := true;
      }
      Note(FirstContent(at));
    }

    method OnPermissionRequest(requestId: string, details: string)
      requires Valid()
      modifies this
      ensures Valid()
      ensures done == old(done) + [Register(PermissionKind, Some(requestId), Permission(requestId, details, Pending))]
    {
      blocks := blocks + [Permission(requestId, details, Pending)];
      permissionIdxByReqId := permissionIdxByReqId[requestId := |blocks| - 1];
      Note(Register(PermissionKind, Some(requestId), Permission(requestId, details, Pending)));
    }

    method OnPermissionResolved(requestId: string, behavior: string)
      requires Valid()
      modifies this
      ensures Valid()
      ensures done == old(done) + [Respond(Key(PermissionKind, requestId), Decided(BehaviorStatus(behavior)), None)]
    {
      if requestId in permissionIdxByReqId {
        var idx := permissionIdxByReqId[requestId];
        Located(Key(PermissionKind, requestId), idx);
        if blocks[idx].Permission? {
          var status := BehaviorStatus(behavior);
          blocks := blocks[idx := blocks[idx].(status := status)];
        }
      }
      Note(Respond(Key(PermissionKind, requestId), Decided(BehaviorStatus(behavior)), None));
    }

    /** An index entry is a position in the list, of a block of the right kind and id. */
    lemma Located(key: Key, idx: nat)
      requires Valid() && Lookup(Now(), key) == Some(idx)
      ensures idx < |blocks| && BlockKey(blocks[idx]) == Some(key)
    {
      IndexAlwaysOk(done);
      assert EntryOk(Fold(done), key);
    }

    method OnInit(sessionId: string, at: int)
      requires Valid()
      modifies this
      ensures Valid() && done == old(done) + [StartTurn(sessionId, at)]
    {
      turnStartedAt := Some(at);
      turnHasContent := false;
      blocks := blocks + [Session(sessionId)];
      Note(StartTurn(sessionId, at));
    }

    method OnHookStarted(hookId: string, hookName: string)
      requires Valid()
      modifies this
      ensures Valid()
      ensures done == old(done) + [Register(HookKind, Some(hookId), Hook(hookId, hookName, HookPending, None))]
    {
      blocks := blocks + [Hook(hookId, hookName, HookPending, None)];
      hookIdxById := hookIdxById[hookId := |blocks| - 1];
      Note(Register(HookKind, Some(hookId), Hook(hookId, hookName, HookPending, None)));
    }

    method OnHookResponse(hookId: string, hookName: string, outcome: string, exitCode: Option<int>)
      requires Valid()
      modifies this
      ensures Valid()
      ensures var status := ExitStatus(outcome, exitCode);
        done == old(done)
          + [Respond(Key(HookKind, hookId), HookDone(status, exitCode), Some(Hook(hookId, hookName, status, exitCode)))]
    {
      var ok := outcome == "success" && (exitCode.None? || exitCode.value == 0);
      var status := if ok then HookOk else HookFail;
      if hookId in hookIdxById {
        var idx := hookIdxById[hookId];
        Located(Key(HookKind, hookId), idx);
        if blocks[idx].Hook? {
          blocks := blocks[idx := blocks[idx].(hookStatus := status, exitCode := exitCode)];
        }
      } else {
        blocks := blocks + [Hook(hookId, hookName, status, exitCode)];
      }
      Note(Respond(Key(HookKind, hookId), HookDone(status, exitCode), Some(Hook(hookId, hookName, status, exitCode))));
    }

    method OnToolUse(id: Option<string>, name: string, input: string)
      requires Valid()
      modifies this
      ensures Valid() && done == old(done) + [Register(ToolKind, id, Tool("", name, input, None))]
    {
      var useId := if id.Some? then id.value else "tool-" + Decimal(|blocks|);
      blocks := blocks + [Tool(useId, name, input, None)];
      toolIdxByUseId := toolIdxByUseId[useId := |blocks| - 1];
      Note(Register(ToolKind, id, Tool("", name, input, None)));
    }

    method OnToolResult(toolUseId: string, raw: string, isError: bool)
      requires Valid()
      modifies this
      ensures Valid()
      ensures done == old(done) + [Respond(Key(ToolKind, toolUseId), ToolDone(StoredResult(raw, isError)), None)]
    {
      if toolUseId in toolIdxByUseId {
        var idx := toolIdxByUseId[toolUseId];
        Located(Key(ToolKind, toolUseId), idx);
        if blocks[idx].Tool? {
          blocks := blocks[idx := blocks[idx].(result := Some(StoredResult(raw, isError)))];
        }
      }
      Note(Respond(Key(ToolKind, toolUseId), ToolDone(StoredResult(raw, isError)), None));
    }

    /** The result closes the turn. */
    method OnResult(b: Block)
      requires Valid() && BlockKey(b) == None
      modifies this
      ensures Valid() && done == old(done) + [CloseTurn(b)]
    {
      turnStartedAt := None;
      turnHasContent := true;
      blocks := blocks + [b];
      Note(CloseTurn(b));
    }

    method OnContent(c: Content)
      requires Valid()
      modifies this
      ensures Valid() && done == old(done) + ContentAtoms(c)
    {
      match c {
        case TextContent(text) => PushPlain(Text(text));
        case ToolUse(id, name, input) =>
          if name != "" {
            OnToolUse(id, name, input);
          }
        case OtherContent =>
      }
    }

    method OnAssistant(content: seq<Content>, at: int)
      requires Valid()
      modifies this
      ensures Valid() && done == old(done) + ([FirstContent(at)] + AllContent(content))
    {
      MaybeInsertThinking(at);
      ghost var before := done;
      var i := 0;
      while i < |content|
        invariant 0 <= i <= |content|
        invariant Valid() && done == before + AllContent(content[..i])
      {
        AllContentStep(content, i, before);
        OnContent(content[i]);
        i := i + 1;
      }
      assert content[..|content|] == content;
    }

    method OnUserContent(c: UserContent)
      requires Valid()
      modifies this
      ensures Valid() && done == old(done) + UserAtoms(c)
    {
      match c {
        case ToolResultContent(id, raw, isError) =>
          if id != "" {
            OnToolResult(id, raw, isError);
          }
        case OtherUserContent =>
      }
    }

    method OnUserBlocks(content: seq<UserContent>)
      requires Valid()
      modifies this
      ensures Valid() && done == old(done) + AllUser(content)
    {
      var i := 0;
      while i < |content|
        invariant 0 <= i <= |content|
        invariant Valid() && done == old(done) + AllUser(content[..i])
      {
        AllUserStep(content, i, old(done));
        OnUserContent(content[i]);
        i := i + 1;
      }
      assert content[..|content|] == content;
    }

    /** The turn still running at the end shows as an ongoing thought. */
    method Close(now: int) returns (all: seq<Block>)
      ensures all == Finish(Now(), now)
    {
      all := blocks;
      if turnStartedAt.Some? && !turnHasContent {
        var elapsed := now - turnStartedAt.value;
        if elapsed >= THINKING_MIN_MS {
          all := all + [Thinking(elapsed, true)];
        }
      }
    }

    method OnEvent(e: Event, now: int)
      requires Valid()
      modifies this
      ensures Valid() && done == old(done) + Atoms(e, now)
    {
      match e {
        case UserPrompt(text) => PushPlain(Prompt(text));
        case PermissionRequest(id, details) => OnPermissionRequest(id, details);
        case PermissionResolved(id, behavior) => OnPermissionResolved(id, behavior);
        case Init(sessionId, at) => if sessionId != "" { OnInit(sessionId, Or(at, now)); }
        case HookStarted(id, name) => if id != "" { OnHookStarted(id, Or(name, "?")); }
        case HookResponse(id, name, outcome, exitCode) =>
          if id != "" { OnHookResponse(id, Or(name, "?"), outcome, exitCode); }
        case Assistant(content, at) => OnAssistant(content, Or(at, now));
        case UserText(cleaned) => if cleaned != "" { PushPlain(Prompt(cleaned)); }
        case UserBlocks(content) => OnUserBlocks(content);
        case ResultEvent(_, _, _, _, _) => OnResult(ResultBlock(e));
        case SdkError(error) => PushPlain(Error(Or(error, "sdk error")));
        case OtherEvent =>
      }
    }
  }

  lemma AllAtomsStep(events: seq<Event>, i: nat, now: int)
    requires i < |events|
    ensures AllAtoms(events[..i + 1], now) == AllAtoms(events[..i], now) + Atoms(events[i], now)
  {
    assert events[..i + 1][..i] == events[..i];
  }

  method ProcessClaude(events: seq<Event>, now: int) returns (blocks: seq<Block>)
    ensures blocks == Finish(Fold(AllAtoms(events, now)), now)
  {
    var p := new Processor();
    var i := 0;
    while i < |events|
      invariant 0 <= i <= |events|
      invariant p.Valid() && p.done == AllAtoms(events[..i], now)
      invariant fresh(p)
    {
      AllAtomsStep(events, i, now);
      p.OnEvent(events[i], now);
      i := i + 1;
    }
    assert events[..|events|] == events;
    blocks := p.Close(now);
  }
}
