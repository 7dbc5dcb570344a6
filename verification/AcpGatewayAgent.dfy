// src/acp/translator.ts: the agent's handlers over its session store and its map
// of pending prompts, both updated in place.
module AcpGatewayAgentModel {
  import opened JsText
  import opened AcpSessionModel
  import opened AcpSessionStoreModel
  import opened AcpAgentModel

  class PendingPrompt {
    const sessionId: string
    const sessionKey: string
    const idempotencyKey: string
    var sentTextLength: nat
    var sentText: string

    constructor (sessionId: string, sessionKey: string, idempotencyKey: string)
      ensures View() == Pending(sessionId, sessionKey, idempotencyKey, 0, "")
    {
      this.sessionId, this.sessionKey, this.idempotencyKey := sessionId, sessionKey, idempotencyKey;
      sentTextLength, sentText := 0, "";
    }

    function View(): Pending
      reads this
    {
      Pending(sessionId, sessionKey, idempotencyKey, sentTextLength, sentText)
    }
  }

  class AcpGatewayAgent {
    const sessionStore: AcpSessionStore
    var pendingPrompts: map<string, PendingPrompt>
    var pendingOrder: seq<string>
    var log: seq<Effect>

    ghost predicate Valid()
      reads this, pendingPrompts.Values, sessionStore, sessionStore.sessions.Values
    {
      sessionStore.Valid() && Filed()
    }

    ghost predicate Filed()
      reads this`pendingPrompts, this`pendingOrder, pendingPrompts.Values
    {
      PendingFiled(Agent(EMPTY_STORE, pendingOrder, PendingView(), []))
    }

    ghost function PendingView(): map<string, Pending>
      reads this`pendingPrompts, pendingPrompts.Values
    {
      map id | id in pendingPrompts :: pendingPrompts[id].View()
    }

    ghost function View(): Agent
      reads this, pendingPrompts.Values, sessionStore, sessionStore.sessions.Values
    {
      Agent(sessionStore.View(), pendingOrder, PendingView(), log)
    }

    constructor (store: AcpSessionStore)
      requires store.Valid()
      ensures Valid() && sessionStore == store && View() == Agent(store.View(), [], map[], [])
    {
      sessionStore, pendingPrompts, pendingOrder, log := store, map[], [], [];
    }

    method RegisterPending(p: PendingPrompt)
      requires Valid()
      modifies this`pendingPrompts, this`pendingOrder
      ensures Valid() && View() == Register(old(View()), p.View())
    {
      hide PendingFiled, Ordered;
      ghost var bare := Agent(EMPTY_STORE, pendingOrder, PendingView(), []);
      RegisterFiled(bare, p.View());
      if p.sessionId !in pendingPrompts {
        pendingOrder := pendingOrder + [p.sessionId];
      }
      pendingPrompts := pendingPrompts[p.sessionId := p];
      assert PendingView() == bare.pending[p.sessionId := p.View()];
    }

    method DeletePending(sessionId: string)
      requires Valid()
      modifies this`pendingPrompts, this`pendingOrder
      ensures Valid() && View() == Unregister(old(View()), sessionId)
    {
      hide PendingFiled, Ordered, Without;
      ghost var bare := Agent(EMPTY_STORE, pendingOrder, PendingView(), []);
      UnregisterFiled(bare, sessionId);
      pendingOrder := Without(pendingOrder, sessionId);
      pendingPrompts := pendingPrompts - {sessionId};
      assert PendingView() == bare.pending - {sessionId};
    }

    /** Looks the session up and cancels its active run, as both a prompt and a cancel begin. */
    method TouchAndCancel(sessionId: string, nowMs: int) returns (session: Option<Session>)
      requires Valid()
      modifies sessionStore, sessionStore.sessions.Values
      ensures Valid() && PendingView() == old(PendingView()) && sessionStore.sessions == old(sessionStore.sessions)
      ensures sessionStore.View() == CancelActive(Touch(old(sessionStore.View()), sessionId, nowMs), sessionId, nowMs)
      ensures session.Some? == (sessionId in old(sessionStore.sessions))
      ensures if session.Some? then session.value ==
        Touch(old(sessionStore.View()), sessionId, nowMs).sessions[sessionId]
        else sessionStore.View() == old(sessionStore.View())
    {
      hide PendingFiled, Ordered, CancelActive, AcpSessionStore.View, AcpSessionStore.Valid, Filed, PendingView;
      CancelUnknown(sessionStore.View(), sessionId, nowMs);
      var found := sessionStore.GetSession(sessionId, nowMs);
      if found.None? {
        return None;
      }
      session := Some(found.value.View());
      var cancelled := sessionStore.CancelActiveRun(sessionId, nowMs);
    }

    lemma CancelUnknown(st: Store, sessionId: string, nowMs: int)
      ensures sessionId !in st.sessions ==> CancelActive(st, sessionId, nowMs) == st
    {}

    /** Registers an accepted prompt and sends it. */
    method SendPrompt(sessionId: string, key: string, runId: string)
      requires Valid()
      modifies this
      ensures Valid()
      ensures var registered := Register(old(View()), Pending(sessionId, key, runId, 0, ""));
        View() == registered.(log := registered.log + [SentPrompt(key, runId)])
    {
      hide PendingFiled, Ordered, AcpSessionStore.View, PendingView, AcpSessionStore.Valid, Filed;
      var pending := new PendingPrompt(sessionId, key, runId);
      RegisterPending(pending);
      log := log + [SentPrompt(key, runId)];
    }

    /** Runs a prompt up to sending it; `fits` says whether its text is within the size limit. */
    method Prompt(sessionId: string, runId: string, controller: nat, fits: bool, nowMs: int) returns (accepted: bool)
      requires Valid()
      modifies this, sessionStore, sessionStore.sessions.Values
      ensures Valid() && (View(), accepted) ==
        AcpAgentModel.Prompt(old(View()), sessionId, runId, controller, fits, nowMs)
    {
      hide PendingFiled, Ordered, CancelActive, SetActive, PendingView, Register, Filed;
      var session := TouchAndCancel(sessionId, nowMs);
      if session.None? || !fits {
        return false;
      }
      sessionStore.SetActiveRun(sessionId, runId, controller, nowMs);
      SendPrompt(sessionId, session.value.sessionKey, runId);
      accepted := true;
    }

    /** The handler for a refused `chat.send`. */
    method PromptFailed(sessionId: string, runId: string, nowMs: int)
      requires Valid()
      modifies this, sessionStore, sessionStore.sessions.Values
      ensures Valid() && View() == RequestFailed(old(View()), sessionId, runId, nowMs)
    {
      hide PendingFiled, Ordered, ClearActive, Without, PendingView, Filed, AcpSessionStore.View, AcpSessionStore.Valid;
      DeletePending(sessionId);
      sessionStore.ClearActiveRun(sessionId, nowMs);
      log := log + [Rejected(runId)];
    }

    /** A cancel up to its wait; what it returns is the run it will resolve after the wait. */
    method CancelStart(sessionId: string, nowMs: int) returns (resolving: Option<string>)
      requires Valid()
      modifies this, sessionStore, sessionStore.sessions.Values
      ensures Valid() && (View(), resolving) == CancelBegin(old(View()), sessionId, nowMs)
    {
      hide PendingFiled, Ordered, CancelActive, SetActive, AcpSessionStore.Valid, Filed;
      var session := TouchAndCancel(sessionId, nowMs);
      if session.None? {
        return None;
      }
      var activeRunId := session.value.activeRunId;
      var pending := if sessionId in pendingPrompts then Some(pendingPrompts[sessionId].idempotencyKey) else None;
      var scopedRunId := if activeRunId.Some? then activeRunId else pending;
      assert sessionId in pendingPrompts ==> pendingPrompts[sessionId].View() == PendingView()[sessionId];
      if !Truthy(scopedRunId) {
        return None;
      }
      log := log + [SentAbort(session.value.sessionKey, scopedRunId.value)];
      resolving := pending;
    }

    method CancelFinish(sessionId: string, runId: string)
      requires Valid()
      modifies this
      ensures Valid() && View() == CancelEnd(old(View()), sessionId, runId)
    {
      hide PendingFiled, Ordered;
      DeletePending(sessionId);
      log := log + [Resolved(runId, Cancelled)];
    }

    method FinishPrompt(sessionId: string, runId: string, reason: StopReason, nowMs: int)
      requires Valid()
      modifies this, sessionStore, sessionStore.sessions.Values
      ensures Valid() && View() == Finish(old(View()), sessionId, runId, reason, nowMs)
    {
      hide PendingFiled, Ordered, ClearActive, Without, PendingView, Filed, AcpSessionStore.View, AcpSessionStore.Valid;
      DeletePending(sessionId);
      sessionStore.ClearActiveRun(sessionId, nowMs);
      log := log + [Resolved(runId, reason)];
    }

    lemma PendingApart(sessionId: string)
      requires Filed() && sessionId in pendingPrompts
      ensures forall other :: other in pendingPrompts && other != sessionId ==>
        pendingPrompts[other] != pendingPrompts[sessionId]
    {
      forall other | other in pendingPrompts && other != sessionId
        ensures pendingPrompts[other] != pendingPrompts[sessionId] {
        assert PendingView()[other].sessionId == other && PendingView()[sessionId].sessionId == sessionId;
      }
    }

    /** Records the snapshot on the pending prompt. */
    method AdvancePending(sessionId: string, fullText: string)
      requires Filed() && sessionId in pendingPrompts
      modifies pendingPrompts.Values
      ensures Filed()
      ensures PendingView() == old(PendingView())[sessionId := Advanced(old(PendingView()[sessionId]), fullText)]
    {
      PendingApart(sessionId);
      ghost var bare := Agent(EMPTY_STORE, pendingOrder, PendingView(), []);
      AdvanceFiled(bare, sessionId, fullText);
      hide PendingFiled;
      var pending := pendingPrompts[sessionId];
      pending.sentTextLength := |fullText|;
      pending.sentText := fullText;
      assert PendingView() == bare.pending[sessionId := Advanced(bare.pending[sessionId], fullText)];
    }

    method HandleDeltaEvent(sessionId: string, fullText: string)
      requires Valid()
      modifies this`log, pendingPrompts.Values
      ensures Valid() && View() == Delta(old(View()), sessionId, fullText)
    {
      hide PendingFiled, Ordered, AcpSessionStore.View, AcpSessionStore.Valid, Filed;
      if sessionId !in pendingPrompts {
        return;
      }
      var sentSoFar := pendingPrompts[sessionId].sentTextLength;
      if |fullText| <= sentSoFar {
        return;
      }
      var newText := fullText[sentSoFar..];
      AdvancePending(sessionId, fullText);
      log := log + [MessageChunk(sessionId, newText)];
    }

    lemma AdvanceFiled(a: Agent, sessionId: string, fullText: string)
      requires PendingFiled(a) && sessionId in a.pending
      ensures PendingFiled(a.(pending := a.pending[sessionId := Advanced(a.pending[sessionId], fullText)]))
    {}

    method FindPendingBySessionKey(sessionKey: string, runId: Option<string>) returns (r: Option<PendingPrompt>)
      requires Valid()
      ensures r.Some? ==> r.value in pendingPrompts.Values
      ensures FindPending(View(), pendingOrder, sessionKey, runId) == if r.Some? then Some(r.value.View()) else None
    {
      assert pendingOrder[0..] == pendingOrder;
      for k := 0 to |pendingOrder|
        invariant FindPending(View(), pendingOrder[k..], sessionKey, runId) ==
          FindPending(View(), pendingOrder, sessionKey, runId)
      {
        assert pendingOrder[k..][0] == pendingOrder[k] && pendingOrder[k..][1..] == pendingOrder[k + 1..];
        assert pendingOrder[k] in PendingView();
        var pending := pendingPrompts[pendingOrder[k]];
        if pending.sessionKey == sessionKey && (!Truthy(runId) || pending.idempotencyKey == runId.value) {
          return Some(pending);
        }
      }
      r := None;
    }

    method HandleChatEvent(sessionKey: string, runId: Option<string>, state: ChatState, snapshot: Option<string>,
        nowMs: int)
      requires Valid()
      modifies this, pendingPrompts.Values, sessionStore, sessionStore.sessions.Values
      ensures Valid() && View() == ChatEvent(old(View()), sessionKey, runId, state, snapshot, nowMs)
    {
      hide Filed, PendingFiled, Ordered, AcpSessionStore.View, AcpSessionStore.Valid, Delta, Finish, PendingView;
      ValidParts();
      SamePending();
      if sessionKey == "" {
        return;
      }
      var pending := FindPendingBySessionKey(sessionKey, runId);
      if pending.None? {
        return;
      }
      var sessionId, run := pending.value.sessionId, pending.value.idempotencyKey;
      if snapshot.Some? && (state.DeltaState? || state.FinalState?) {
        HandleDeltaEvent(sessionId, snapshot.value);
        if state.DeltaState? {
          return;
        }
      }
      if state.FinalState? || state.AbortedState? || state.ErrorState? {
        FinishPrompt(sessionId, run, ReasonOf(state), nowMs);
      }
    }

    lemma SamePending()
      requires Filed()
      ensures forall id :: id in pendingOrder ==> id in PendingView()
    {}

    method ClearRun(sessionId: string, nowMs: int)
      requires Valid()
      modifies sessionStore, sessionStore.sessions.Values
      ensures Valid() && View() == old(View()).(store := ClearActive(old(View()).store, sessionId, nowMs))
      ensures sessionStore.sessions == old(sessionStore.sessions)
    {
      ValidParts();
      ViewParts();
      hide *;
      sessionStore.ClearActiveRun(sessionId, nowMs);
      ValidParts();
      ViewParts();
    }

    lemma ViewParts()
      ensures View() == Agent(sessionStore.View(), pendingOrder, PendingView(), log)
    {}

    method RejectOne(sessionId: string, nowMs: int)
      requires Valid() && sessionId in pendingPrompts && sessionId in View().pending
      modifies this`log, sessionStore, sessionStore.sessions.Values
      ensures Valid() && View() == Reject(old(View()), sessionId, nowMs)
      ensures sessionStore.sessions == old(sessionStore.sessions)
    {
      ValidParts();
      OwnId(sessionId);
      hide Valid, Ordered, ClearActive, PendingFiled, AcpSessionStore.View, AcpSessionStore.Valid, Filed, PendingView;
      var pending := pendingPrompts[sessionId];
      ClearRun(pending.sessionId, nowMs);
      ValidParts();
      log := log + [Rejected(pending.idempotencyKey)];
      ValidParts();
    }

    lemma ValidParts()
      ensures Valid() <==> sessionStore.Valid() && Filed()
    {}

    /** Every listed prompt is pending. */
    ghost predicate AllPending(ids: seq<string>)
      reads this, pendingPrompts.Values, sessionStore, sessionStore.sessions.Values
    {
      forall id :: id in ids ==> id in pendingPrompts && id in View().pending
    }

    lemma OrderPending()
      requires Filed()
      ensures AllPending(pendingOrder)
    {}

    method RejectAll(nowMs: int)
      requires Valid() && AllPending(pendingOrder)
      modifies this`log, sessionStore, sessionStore.sessions.Values
      ensures Valid() && View() == RejectEach(old(View()), pendingOrder, nowMs)
    {
      var ids := pendingOrder;
      ghost var before := View();
      hide Valid, Ordered, ClearActive, PendingFiled, AcpSessionStore.View, AcpSessionStore.Valid, Filed, PendingView;
      assert ids[0..] == ids;
      for k := 0 to |ids|
        invariant Valid() && AllPending(ids) && sessionStore.sessions == old(sessionStore.sessions)
        invariant RejectEach(View(), ids[k..], nowMs) == RejectEach(before, ids, nowMs)
      {
        assert ids[k..][0] == ids[k] && ids[k..][1..] == ids[k + 1..];
        RejectOne(ids[k], nowMs);
      }
    }

    lemma OwnId(sessionId: string)
      requires Filed() && sessionId in pendingPrompts
      ensures pendingPrompts[sessionId].sessionId == sessionId
      ensures sessionId in PendingView() &&
        PendingView()[sessionId].idempotencyKey == pendingPrompts[sessionId].idempotencyKey
    {
      assert PendingView()[sessionId].sessionId == sessionId;
    }

    method HandleGatewayDisconnect(nowMs: int)
      requires Valid()
      modifies this, sessionStore, sessionStore.sessions.Values
      ensures Valid() && View() == Disconnect(old(View()), nowMs)
    {
      ValidParts();
      OrderPending();
      RejectEachIs(View(), pendingOrder, nowMs);
      hide Ordered, ClearAll, Rejections, AcpSessionStore.View, AcpSessionStore.Valid, Filed, PendingView, RejectEach;
      RejectAll(nowMs);
      ForgetPending();
    }

    method ForgetPending()
      requires sessionStore.Valid()
      modifies this`pendingPrompts, this`pendingOrder
      ensures Valid() && PendingView() == map[] && pendingOrder == []
    {
      hide AcpSessionStore.View, AcpSessionStore.Valid;
      pendingPrompts, pendingOrder := map[], [];
      assert PendingView() == map[];
    }
  }
}
