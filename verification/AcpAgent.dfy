// src/acp/translator.ts: the prompt, cancel, disconnect and event protocol of
// the gateway agent on top of the session store.  A step is what one handler
// does between two waits.
module AcpAgentModel {
  import opened JsText
  import opened AcpSessionModel

  /** A registered prompt that has not finished yet. */
  datatype Pending = Pending(sessionId: string, sessionKey: string, idempotencyKey: string, sentTextLength: nat,
    sentText: string)

  datatype StopReason = EndTurn | MaxTokens | Cancelled

  /** What the agent has told its client and the gateway, oldest first. */
  datatype Effect =
    | SentPrompt(sessionKey: string, runId: string)
    | SentAbort(sessionKey: string, runId: string)
    | MessageChunk(sessionId: string, text: string)
    | Resolved(runId: string, reason: StopReason)
    | Rejected(runId: string)

  /** The agent at one moment; `order` is the iteration order of the pending prompts. */
  datatype Agent = Agent(store: Store, order: seq<string>, pending: map<string, Pending>, log: seq<Effect>)

  const EMPTY_AGENT := Agent(EMPTY_STORE, [], map[], [])

  // -------------------------------------------------------------- streamed text

  /** The unsent end of a snapshot, if it is longer than what was sent. */
  function NewText(p: Pending, fullText: string): Option<string> {
    if |fullText| <= p.sentTextLength then None else Some(fullText[p.sentTextLength..])
  }

  function Advanced(p: Pending, fullText: string): Pending {
    p.(sentTextLength := |fullText|, sentText := fullText)
  }

  function AfterSnapshot(p: Pending, fullText: string): Pending {
    if |fullText| <= p.sentTextLength then p else Advanced(p, fullText)
  }

  function Delta(a: Agent, sessionId: string, fullText: string): Agent {
    if sessionId !in a.pending then a else
    var p := a.pending[sessionId];
    var chunk := NewText(p, fullText);
    if chunk.None? then a
    else a.(pending := a.pending[sessionId := AfterSnapshot(p, fullText)],
      log := a.log + [MessageChunk(sessionId, chunk.value)])
  }

  /** The chunks emitted for a run of snapshots. */
  function Emitted(p: Pending, snapshots: seq<string>): seq<string>
    decreases |snapshots|
  {
    if snapshots == [] then [] else
    var chunk := NewText(p, snapshots[0]);
    (if chunk.Some? then [chunk.value] else []) + Emitted(AfterSnapshot(p, snapshots[0]), snapshots[1..])
  }

  function Longest(snapshots: seq<string>): nat {
    if snapshots == [] then 0 else Max(|snapshots[0]|, Longest(snapshots[1..]))
  }

  /** Together the emitted chunks are as long as the longest snapshot, less what had been sent before. */
  lemma {:induction false} EmittedLength(p: Pending, snapshots: seq<string>)
    ensures |Concat(Emitted(p, snapshots))| == Max(p.sentTextLength, Longest(snapshots)) - p.sentTextLength
    decreases |snapshots|
  {
    if snapshots == [] {
    } else {
      EmittedLength(AfterSnapshot(p, snapshots[0]), snapshots[1..]);
      var chunk := NewText(p, snapshots[0]);
      var first := if chunk.Some? then [chunk.value] else [];
      ConcatAppend(first, Emitted(AfterSnapshot(p, snapshots[0]), snapshots[1..]));
      if chunk.Some? {
        ConcatSingle(chunk.value);
      }
    }
  }

  /** Snapshots that are all prefixes of one text, in any order and with repeats, are emitted as its longest prefix
      among them. */
  lemma {:induction false} EmittedPrefixes(p: Pending, snapshots: seq<string>, text: string)
    requires (forall s :: s in snapshots ==> s <= text) && p.sentTextLength <= |text|
    ensures Longest(snapshots) <= |text|
    ensures Concat(Emitted(p, snapshots)) == text[p.sentTextLength..Max(p.sentTextLength, Longest(snapshots))]
    decreases |snapshots|
  {
    if snapshots == [] {
    } else {
      var s := snapshots[0];
      assert s in snapshots;
      var next := AfterSnapshot(p, s);
      assert forall x :: x in snapshots[1..] ==> x in snapshots;
      EmittedPrefixes(next, snapshots[1..], text);
      var chunk := NewText(p, s);
      var first := if chunk.Some? then [chunk.value] else [];
      ConcatAppend(first, Emitted(next, snapshots[1..]));
      if chunk.Some? {
        ConcatSingle(chunk.value);
        assert chunk.value == text[p.sentTextLength..next.sentTextLength];
      }
    }
  }

  /** After a longer snapshot the client has that snapshot exactly when it extends what the client had. */
  lemma SnapshotFaithful(p: Pending, client: string, fullText: string)
    requires |client| == p.sentTextLength < |fullText|
    ensures client + NewText(p, fullText).value == fullText <==> client <= fullText
  {
    assert fullText == fullText[..|client|] + fullText[|client|..];
    assert client + NewText(p, fullText).value == fullText ==> fullText[..|client|] == client;
  }

  // ----------------------------------------------------------------------- steps

  function Register(a: Agent, p: Pending): Agent {
    a.(order := if p.sessionId in a.pending then a.order else a.order + [p.sessionId],
      pending := a.pending[p.sessionId := p])
  }

  function Unregister(a: Agent, sessionId: string): Agent {
    a.(order := Without(a.order, sessionId), pending := a.pending - {sessionId})
  }

  /** A prompt: any active run of the session is cancelled first, even when the prompt is then refused as too large. */
  function Prompt(a: Agent, sessionId: string, runId: string, controller: nat, fits: bool, now: int): (Agent, bool) {
    if sessionId !in a.store.sessions then (a, false) else
    var cancelled := CancelActive(Touch(a.store, sessionId, now), sessionId, now);
    if !fits then (a.(store := cancelled), false) else
    var key := a.store.sessions[sessionId].sessionKey;
    var registered := Register(a.(store := SetActive(cancelled, sessionId, runId, controller, now)),
      Pending(sessionId, key, runId, 0, ""));
    (registered.(log := registered.log + [SentPrompt(key, runId)]), true)
  }

  /** The gateway refuses the prompt that was sent for `runId`. */
  function RequestFailed(a: Agent, sessionId: string, runId: string, now: int): Agent {
    Unregister(a, sessionId).(store := ClearActive(a.store, sessionId, now), log := a.log + [Rejected(runId)])
  }

  /** The run a cancel speaks about: the active one, or the registered prompt's. */
  function ScopedRun(a: Agent, sessionId: string): Option<string>
    requires sessionId in a.store.sessions
  {
    var active := a.store.sessions[sessionId].activeRunId;
    if active.Some? then active
    else if sessionId in a.pending then Some(a.pending[sessionId].idempotencyKey) else None
  }

  /** A cancel up to its wait for the gateway; the second part is the run of the prompt it will resolve afterwards. */
  function CancelBegin(a: Agent, sessionId: string, now: int): (Agent, Option<string>) {
    if sessionId !in a.store.sessions then (a, None) else
    var run := ScopedRun(a, sessionId);
    var cancelled := a.(store := CancelActive(Touch(a.store, sessionId, now), sessionId, now));
    if !Truthy(run) then (cancelled, None)
    else (cancelled.(log := a.log + [SentAbort(a.store.sessions[sessionId].sessionKey, run.value)]),
          if sessionId in a.pending then Some(a.pending[sessionId].idempotencyKey) else None)
  }

  /** The rest of a cancel, once the gateway has answered. */
  function CancelEnd(a: Agent, sessionId: string, runId: string): Agent {
    Unregister(a, sessionId).(log := a.log + [Resolved(runId, Cancelled)])
  }

  function Finish(a: Agent, sessionId: string, runId: string, reason: StopReason, now: int): Agent {
    Unregister(a, sessionId).(store := ClearActive(a.store, sessionId, now), log := a.log + [Resolved(runId, reason)])
  }

  function ClearAll(st: Store, ids: seq<string>, now: int): Store
    decreases |ids|
  {
    if ids == [] then st else ClearAll(ClearActive(st, ids[0], now), ids[1..], now)
  }

  function Rejections(pending: map<string, Pending>, ids: seq<string>): seq<Effect>
    requires forall id :: id in ids ==> id in pending
  {
    if ids == [] then [] else [Rejected(pending[ids[0]].idempotencyKey)] + Rejections(pending, ids[1..])
  }

  /** The handling of one pending prompt when the gateway is gone. */
  function Reject(a: Agent, id: string, now: int): Agent
    requires id in a.pending
  {
    a.(store := ClearActive(a.store, id, now), log := a.log + [Rejected(a.pending[id].idempotencyKey)])
  }

  function RejectEach(a: Agent, ids: seq<string>, now: int): Agent
    requires forall id :: id in ids ==> id in a.pending
    decreases |ids|
  {
    if ids == [] then a else RejectEach(Reject(a, ids[0], now), ids[1..], now)
  }

  lemma {:induction false} RejectEachIs(a: Agent, ids: seq<string>, now: int)
    requires forall id :: id in ids ==> id in a.pending
    ensures RejectEach(a, ids, now) == a.(store := ClearAll(a.store, ids, now),
      log := a.log + Rejections(a.pending, ids))
    decreases |ids|
  {
    hide ClearActive;
    if ids == [] {
      assert a.log + [] == a.log;
    } else {
      var next := Reject(a, ids[0], now);
      RejectEachIs(next, ids[1..], now);
      assert a.log + ([Rejected(a.pending[ids[0]].idempotencyKey)] + Rejections(a.pending, ids[1..])) ==
        next.log + Rejections(a.pending, ids[1..]);
    }
  }

  function Disconnect(a: Agent, now: int): Agent
    requires forall id :: id in a.order ==> id in a.pending
  {
    Agent(ClearAll(a.store, a.order, now), [], map[], a.log + Rejections(a.pending, a.order))
  }

  /** The first pending prompt for the session key, and for the run when one is named. */
  function FindPending(a: Agent, ids: seq<string>, sessionKey: string, runId: Option<string>): Option<Pending>
    requires forall id :: id in ids ==> id in a.pending
  {
    if ids == [] then None
    else if a.pending[ids[0]].sessionKey == sessionKey &&
      (!Truthy(runId) || a.pending[ids[0]].idempotencyKey == runId.value) then
      Some(a.pending[ids[0]])
    else FindPending(a, ids[1..], sessionKey, runId)
  }

  datatype ChatState = DeltaState | FinalState(stopReason: Option<string>) | AbortedState | ErrorState | OtherState

  function ReasonOf(state: ChatState): StopReason {
    match state
    case FinalState(reason) => if reason == Some("max_tokens") then MaxTokens else EndTurn
    case AbortedState => Cancelled
    case _ => EndTurn
  }

  /** A chat event with its snapshot, if it carries one; the snapshot of a final event goes out before the prompt
      ends. */
  function ChatEvent(a: Agent, sessionKey: string, runId: Option<string>, state: ChatState, snapshot: Option<string>,
      now: int): Agent
    requires forall id :: id in a.order ==> id in a.pending
  {
    var found := FindPending(a, a.order, sessionKey, runId);
    if sessionKey == "" || found.None? then a else
    var p := found.value;
    var shown := if snapshot.Some? && (state.DeltaState? || state.FinalState?)
      then Delta(a, p.sessionId, snapshot.value) else a;
    if state.DeltaState? || state.OtherState? then shown
    else Finish(shown, p.sessionId, p.idempotencyKey, ReasonOf(state), now)
  }

  // ------------------------------------------------------------------- invariants

  ghost predicate PendingFiled(a: Agent) {
    NoDup(a.order) && (forall id :: id in a.order <==> id in a.pending) && forall id :: id in a.pending ==>
      a.pending[id].sessionId == id
  }

  /** A session with an active run has a registered prompt for that run. */
  ghost predicate Coupled(a: Agent) {
    forall id :: id in a.store.sessions && a.store.sessions[id].activeRunId.Some? ==>
      id in a.pending && Some(a.pending[id].idempotencyKey) == a.store.sessions[id].activeRunId
  }

  ghost predicate AgentInv(a: Agent, limits: Limits) {
    StoreInv(a.store, limits) && PendingFiled(a) && Coupled(a)
  }

  lemma UnregisterFiled(a: Agent, sessionId: string)
    requires PendingFiled(a)
    ensures PendingFiled(Unregister(a, sessionId))
  {
    WithoutMembers(a.order, sessionId);
  }

  lemma RegisterFiled(a: Agent, p: Pending)
    requires PendingFiled(a)
    ensures PendingFiled(Register(a, p))
  {
    assert forall id :: id in Register(a, p).order <==> id in a.order || id == p.sessionId;
  }

  lemma CreateKeeps(a: Agent, limits: Limits, id: string, key: string, cwd: string, now: int)
    requires AgentInv(a, limits)
    ensures AgentInv(a.(store := Create(a.store, limits, id, key, cwd, now).0), limits)
  {
    hide Create, StoreInv, PendingFiled;
    assert Ordered(a.store) && |a.store.order| <= limits.maxSessions &&
      limits.maxSessions >= 1 by { InvParts(a.store, limits); }
    CreateInv(a.store, limits, id, key, cwd, now);
    CreateLaw(a.store, limits, id, key, cwd, now);
    PendingFiledOnly(a, Create(a.store, limits, id, key, cwd, now).0, a.log);
  }

  lemma InvParts(st: Store, limits: Limits)
    requires StoreInv(st, limits)
    ensures Ordered(st) && |st.order| <= limits.maxSessions && limits.maxSessions >= 1 && RunsHaveControllers(st) &&
      IndexInverse(st)
  {}

  lemma CancelKeepsOthers(st: Store, id: string, now: int)
    requires RunsHaveControllers(st)
    ensures var r := CancelActive(st, id, now);
      r.sessions.Keys == st.sessions.Keys && (id in r.sessions ==> r.sessions[id].activeRunId.None?) &&
      (forall other :: other in r.sessions && other != id ==> r.sessions[other] == st.sessions[other]) &&
      forall run :: run in r.runs ==> run in st.runs
  {}

  /** Registering the prompt of the run that becomes active couples the session again. */
  lemma PromptCouples(a: Agent, sessionId: string, key: string, runId: string, controller: nat, now: int)
    requires Coupled(a) && sessionId in a.store.sessions
    ensures var p := Pending(sessionId, key, runId, 0, "");
      forall log :: Coupled(Register(a.(store := SetActive(a.store, sessionId, runId, controller, now)),
        p).(log := log))
  {}

  lemma CancelCouples(a: Agent, limits: Limits, sessionId: string, now: int)
    requires AgentInv(a, limits) && sessionId in a.store.sessions
    ensures var cancelled := CancelActive(Touch(a.store, sessionId, now), sessionId, now);
      AgentInv(a.(store := cancelled), limits) && sessionId in cancelled.sessions &&
        cancelled.sessions[sessionId].activeRunId.None? &&
      forall run :: run in cancelled.runs ==> run in a.store.runs
  {
    hide StoreInv, PendingFiled, CancelActive;
    var touched := Touch(a.store, sessionId, now);
    TouchInv(a.store, limits, sessionId, now);
    ClearInv(touched, limits, sessionId, now);
    InvParts(touched, limits);
    CancelKeepsOthers(touched, sessionId, now);
    PendingFiledOnly(a, CancelActive(touched, sessionId, now), a.log);
  }

  lemma PromptKeeps(a: Agent, limits: Limits, sessionId: string, runId: string, controller: nat, fits: bool, now: int)
    requires AgentInv(a, limits) && runId != "" && runId !in a.store.runs
    ensures AgentInv(Prompt(a, sessionId, runId, controller, fits, now).0, limits)
  {
    hide StoreInv, PendingFiled, CancelActive, Coupled, SetActive, Touch;
    if sessionId in a.store.sessions {
      CancelCouples(a, limits, sessionId, now);
      var cancelled := CancelActive(Touch(a.store, sessionId, now), sessionId, now);
      SetActiveInv(cancelled, limits, sessionId, runId, controller, now);
      var p := Pending(sessionId, a.store.sessions[sessionId].sessionKey, runId, 0, "");
      RegisterFiled(a, p);
      PromptCouples(a.(store := cancelled), sessionId, p.sessionKey, runId, controller, now);
      PendingFiledOnly(Register(a, p), SetActive(cancelled, sessionId, runId, controller, now),
        a.log + [SentPrompt(p.sessionKey, runId)]);
    }
  }

  lemma PendingFiledOnly(a: Agent, store: Store, log: seq<Effect>)
    requires PendingFiled(a)
    ensures PendingFiled(a.(store := store, log := log))
  {}

  lemma EndKeeps(a: Agent, limits: Limits, sessionId: string, log: seq<Effect>, now: int)
    requires AgentInv(a, limits)
    ensures AgentInv(Unregister(a, sessionId).(store := ClearActive(a.store, sessionId, now), log := log), limits)
  {
    hide StoreInv, PendingFiled;
    ClearInv(a.store, limits, sessionId, now);
    UnregisterFiled(a, sessionId);
    PendingFiledOnly(Unregister(a, sessionId), ClearActive(a.store, sessionId, now), log);
  }

  lemma CancelBeginKeeps(a: Agent, limits: Limits, sessionId: string, now: int)
    requires AgentInv(a, limits)
    ensures AgentInv(CancelBegin(a, sessionId, now).0, limits)
    ensures sessionId in a.store.sessions ==>
      CancelBegin(a, sessionId, now).0.store.sessions[sessionId].activeRunId.None?
  {
    hide StoreInv, PendingFiled;
    TouchInv(a.store, limits, sessionId, now);
    var touched := Touch(a.store, sessionId, now);
    ClearInv(touched, limits, sessionId, now);
    InvParts(touched, limits);
    var cancelled := CancelActive(touched, sessionId, now);
    PendingFiledOnly(a, cancelled, CancelBegin(a, sessionId, now).0.log);
    PendingFiledOnly(a, a.store, a.log);
  }

  /** The end of a cancel keeps the agent consistent exactly when no new run became active while it waited. */
  lemma CancelEndKeepsExactly(a: Agent, limits: Limits, sessionId: string, runId: string)
    requires AgentInv(a, limits)
    ensures AgentInv(CancelEnd(a, sessionId, runId), limits) <==>
      (sessionId in a.store.sessions ==> a.store.sessions[sessionId].activeRunId.None?)
  {
    hide StoreInv;
    UnregisterFiled(a, sessionId);
  }

  lemma TouchKeeps(a: Agent, limits: Limits, sessionId: string, now: int)
    requires AgentInv(a, limits)
    ensures AgentInv(a.(store := Touch(a.store, sessionId, now)), limits)
  {
    hide StoreInv, PendingFiled;
    TouchInv(a.store, limits, sessionId, now);
    PendingFiledOnly(a, Touch(a.store, sessionId, now), a.log);
  }

  lemma DeltaKeeps(a: Agent, limits: Limits, sessionId: string, fullText: string)
    requires AgentInv(a, limits)
    ensures AgentInv(Delta(a, sessionId, fullText), limits)
  {
    hide StoreInv;
  }

  lemma {:induction false} ClearAllClears(st: Store, ids: seq<string>, limits: Limits, now: int)
    requires StoreInv(st, limits)
    ensures var r := ClearAll(st, ids, now);
      StoreInv(r, limits) && r.sessions.Keys == st.sessions.Keys &&
      forall id :: id in r.sessions ==> r.sessions[id].activeRunId == if id in ids then None
        else st.sessions[id].activeRunId
    decreases |ids|
  {
    hide StoreInv;
    if ids == [] {
    } else {
      ClearInv(st, limits, ids[0], now);
      ClearAllClears(ClearActive(st, ids[0], now), ids[1..], limits, now);
      assert forall id :: id in ids <==> id == ids[0] || id in ids[1..];
    }
  }

  /** After a disconnect no prompt is pending, no session has an active run and the run index is empty;
      every pending prompt was rejected. */
  lemma {:induction false} DisconnectClears(a: Agent, limits: Limits, now: int)
    requires AgentInv(a, limits)
    ensures var r := Disconnect(a, now);
      AgentInv(r, limits) && r.pending == map[] && r.store.runs == map[] &&
      (forall id :: id in r.store.sessions ==>
        r.store.sessions[id].activeRunId.None? && r.store.sessions[id].abortController.None?) &&
      forall id :: id in a.pending ==> Rejected(a.pending[id].idempotencyKey) in r.log
  {
    hide StoreInv;
    var r := Disconnect(a, now);
    ClearAllClears(a.store, a.order, limits, now);
    InvParts(r.store, limits);
    assert r.store.runs == map[];
    AllRejected(a.pending, a.order);
  }

  lemma {:induction false} AllRejected(pending: map<string, Pending>, ids: seq<string>)
    requires forall id :: id in ids ==> id in pending
    ensures forall id :: id in ids ==> Rejected(pending[id].idempotencyKey) in Rejections(pending, ids)
    decreases |ids|
  {
    if ids == [] {
    } else {
      AllRejected(pending, ids[1..]);
      assert Rejections(pending, ids)[0] == Rejected(pending[ids[0]].idempotencyKey);
    }
  }

  lemma {:induction false} FoundIsPending(a: Agent, ids: seq<string>, sessionKey: string, runId: Option<string>)
    requires forall id :: id in ids ==> id in a.pending && a.pending[id].sessionId == id
    ensures var r := FindPending(a, ids, sessionKey, runId);
      if r.Some? then r.value.sessionId in ids && a.pending[r.value.sessionId] == r.value &&
        r.value.sessionKey == sessionKey &&
        (Truthy(runId) ==> r.value.idempotencyKey == runId.value)
      else forall id :: id in ids ==>
        a.pending[id].sessionKey != sessionKey || (Truthy(runId) && a.pending[id].idempotencyKey != runId.value)
    decreases |ids|
  {
    if ids == [] {
    } else {
      FoundIsPending(a, ids[1..], sessionKey, runId);
    }
  }

  lemma ChatEventKeeps(a: Agent, limits: Limits, sessionKey: string, runId: Option<string>, state: ChatState,
      snapshot: Option<string>, now: int)
    requires AgentInv(a, limits)
    ensures AgentInv(ChatEvent(a, sessionKey, runId, state, snapshot, now), limits)
  {
    hide AgentInv;
    assert PendingFiled(a) by { AgentParts(a, limits); }
    var found := FindPending(a, a.order, sessionKey, runId);
    if sessionKey != "" && found.Some? {
      var p := found.value;
      var shown := if snapshot.Some? && (state.DeltaState? || state.FinalState?)
        then Delta(a, p.sessionId, snapshot.value) else a;
      if snapshot.Some? {
        DeltaKeeps(a, limits, p.sessionId, snapshot.value);
      }
      EndKeeps(shown, limits, p.sessionId, shown.log + [Resolved(p.idempotencyKey, ReasonOf(state))], now);
    }
  }

  lemma AgentParts(a: Agent, limits: Limits)
    requires AgentInv(a, limits)
    ensures PendingFiled(a) && StoreInv(a.store, limits) && Coupled(a)
  {}

  /** A final event sends the unsent end of its snapshot before it resolves the prompt, and resolves the prompt it
      found. */
  lemma FinalEventOrder(a: Agent, limits: Limits, sessionKey: string, runId: Option<string>, stop: Option<string>,
      text: string, now: int)
    requires AgentInv(a, limits) && sessionKey != ""
    requires FindPending(a, a.order, sessionKey, runId).Some?
    ensures var p := FindPending(a, a.order, sessionKey, runId).value;
      var r := ChatEvent(a, sessionKey, runId, FinalState(stop), Some(text), now);
      p.sessionId !in r.pending &&
      r.log == a.log + (if |text| > p.sentTextLength then [MessageChunk(p.sessionId, text[p.sentTextLength..])] else [])
                     + [Resolved(p.idempotencyKey, ReasonOf(FinalState(stop)))]
  {
    hide StoreInv;
    FoundIsPending(a, a.order, sessionKey, runId);
  }

  // ------------------------------------------------------------------- whole runs

  datatype Step =
    | CreateStep(id: string, key: string, cwd: string)
    | TouchStep(id: string)
    | PromptStep(id: string, runId: string, controller: nat, fits: bool)
    | RequestFailedStep(id: string, runId: string)
    | CancelBeginStep(id: string)
    | CancelEndStep(id: string, runId: string)
    | SnapshotStep(id: string, text: string)
    | FinishStep(id: string, runId: string, reason: StopReason)
    | EventStep(key: string, run: Option<string>, state: ChatState, snapshot: Option<string>)
    | DisconnectStep

  /** What the protocol asks of a step: run ids are fresh, and a cancel ends before a new run of its session starts. */
  ghost predicate Allowed(a: Agent, s: Step) {
    match s
    case PromptStep(_, runId, _, _) => runId != "" && runId !in a.store.runs
    case CancelEndStep(id, _) => id in a.store.sessions ==> a.store.sessions[id].activeRunId.None?
    case _ => true
  }

  /** The state after a step; a value that is no state of the agent at all is left alone. */
  ghost function Apply(a: Agent, limits: Limits, s: Step, now: int): Agent {
    if !Ordered(a.store) || !PendingFiled(a) then a else
    match s
    case CreateStep(id, key, cwd) => a.(store := Create(a.store, limits, id, key, cwd, now).0)
    case TouchStep(id) => a.(store := Touch(a.store, id, now))
    case PromptStep(id, runId, controller, fits) => Prompt(a, id, runId, controller, fits, now).0
    case RequestFailedStep(id, runId) => RequestFailed(a, id, runId, now)
    case CancelBeginStep(id) => CancelBegin(a, id, now).0
    case CancelEndStep(id, runId) => CancelEnd(a, id, runId)
    case SnapshotStep(id, text) => Delta(a, id, text)
    case FinishStep(id, runId, reason) => Finish(a, id, runId, reason, now)
    case EventStep(key, run, state, snapshot) => ChatEvent(a, key, run, state, snapshot, now)
    case DisconnectStep => Disconnect(a, now)
  }

  lemma StepKeeps(a: Agent, limits: Limits, s: Step, now: int)
    requires AgentInv(a, limits) && Allowed(a, s)
    ensures AgentInv(Apply(a, limits, s, now), limits)
  {
    hide AgentInv, Create, Prompt, CancelBegin, Delta, ChatEvent, ClearActive, Unregister, ClearAll, Rejections;
    AgentParts(a, limits);
    InvParts(a.store, limits);
    match s
    case CreateStep(id, key, cwd) => CreateKeeps(a, limits, id, key, cwd, now);
    case TouchStep(id) => TouchKeeps(a, limits, id, now);
    case PromptStep(id, runId, controller, fits) => PromptKeeps(a, limits, id, runId, controller, fits, now);
    case RequestFailedStep(id, runId) => EndKeeps(a, limits, id, a.log + [Rejected(runId)], now);
    case CancelBeginStep(id) => CancelBeginKeeps(a, limits, id, now);
    case CancelEndStep(id, runId) => CancelEndKeepsExactly(a, limits, id, runId);
    case SnapshotStep(id, text) => DeltaKeeps(a, limits, id, text);
    case FinishStep(id, runId, reason) => EndKeeps(a, limits, id, a.log + [Resolved(runId, reason)], now);
    case EventStep(key, run, state, snapshot) => ChatEventKeeps(a, limits, key, run, state, snapshot, now);
    case DisconnectStep => DisconnectClears(a, limits, now);
  }

  /** One of the states that allowed steps lead to from an agent without sessions. */
  ghost predicate Run(limits: Limits, states: seq<Agent>, steps: seq<Step>, times: seq<int>) {
    |states| == |steps| + 1 && |times| == |steps| && states[0] == EMPTY_AGENT &&
    forall k :: 0 <= k < |steps| ==>
      Allowed(states[k], steps[k]) && states[k + 1] == Apply(states[k], limits, steps[k], times[k])
  }

  lemma EmptyAgentInv(limits: Limits)
    requires limits.maxSessions >= 1
    ensures AgentInv(EMPTY_AGENT, limits)
  {}

  /** Every state of every run, whatever its interleaving of prompts, cancels, failures, events and disconnects, keeps
      the store bounded, the run index exact, and every active run backed by its registered prompt. */
  lemma {:induction false} RunKeeps(limits: Limits, states: seq<Agent>, steps: seq<Step>, times: seq<int>, k: nat)
    requires limits.maxSessions >= 1 && Run(limits, states, steps, times) && k < |states|
    ensures AgentInv(states[k], limits)
    decreases k
  {
    hide AgentInv, Apply, Allowed;
    if k == 0 {
      EmptyAgentInv(limits);
    } else {
      RunKeeps(limits, states, steps, times, k - 1);
      StepKeeps(states[k - 1], limits, steps[k - 1], times[k - 1]);
    }
  }

  /** What an accepted prompt does to the session it is for. */
  lemma PromptEffect(a: Agent, id: string, runId: string, controller: nat, now: int)
    requires id in a.store.sessions
    ensures var r := Prompt(a, id, runId, controller, true, now).0;
      var key := a.store.sessions[id].sessionKey;
      r.pending == a.pending[id := Pending(id, key, runId, 0, "")] && r.log == a.log + [SentPrompt(key, runId)] &&
      r.order == (if id in a.pending then a.order else a.order + [id]) && id in r.store.sessions &&
      r.store.sessions[id].activeRunId == Some(runId) && r.store.sessions[id].sessionKey == key
  {}

  /** What a cancel of a registered run does up to its wait. */
  lemma CancelEffect(a: Agent, id: string, now: int)
    requires id in a.store.sessions && Truthy(a.store.sessions[id].activeRunId) && id in a.pending
    ensures var (r, resolving) := CancelBegin(a, id, now);
      resolving == Some(a.pending[id].idempotencyKey) && r.pending == a.pending && r.order == a.order &&
      id in r.store.sessions
  {}

  /** Without the condition on cancels the coupling breaks: a prompt accepted while a cancel waits loses its
      registration when the cancel ends, and a later disconnect leaves its run active. */
  lemma CancelRaceBreaksCoupling(now: int)
    ensures var s := NewSession("s", "k", "/", now);
      var start := EMPTY_AGENT.(store := Add(EMPTY_STORE, s));
      var a1 := Prompt(start, "s", "r1", 1, true, now).0;
      var (a2, resolving) := CancelBegin(a1, "s", now);
      var a3 := Prompt(a2, "s", "r2", 2, true, now).0;
      var a4 := CancelEnd(a3, "s", "r1");
      resolving == Some("r1") && !Coupled(a4) && a4.order == [] &&
      Disconnect(a4, now).store.sessions["s"].activeRunId == Some("r2")
  {
    hide Prompt, CancelBegin;
    var start := EMPTY_AGENT.(store := Add(EMPTY_STORE, NewSession("s", "k", "/", now)));
    PromptEffect(start, "s", "r1", 1, now);
    var a1 := Prompt(start, "s", "r1", 1, true, now).0;
    assert [] + ["s"] == ["s"] && a1.order == ["s"];
    CancelEffect(a1, "s", now);
    var a2 := CancelBegin(a1, "s", now).0;
    PromptEffect(a2, "s", "r2", 2, now);
    var a3 := Prompt(a2, "s", "r2", 2, true, now).0;
    var a4 := CancelEnd(a3, "s", "r1");
    assert Without(["s"], "s") == [] by { assert ["s"][1..] == []; }
    assert "s" !in a4.pending && a4.store == a3.store;
    assert ClearAll(a4.store, [], now) == a4.store;
  }
}
