// src/acp/translator.ts: whether every prompt that was sent is still registered or
// has been resolved or rejected.
module AcpAgentLog {
  import opened JsText
  import opened AcpSessionModel
  import opened AcpAgentModel

  predicate Sent(log: seq<Effect>, runId: string) {
    exists e :: e in log && e.SentPrompt? && e.runId == runId
  }

  predicate Ends(e: Effect, runId: string) {
    (e.Resolved? || e.Rejected?) && e.runId == runId
  }

  predicate Settled(log: seq<Effect>, runId: string) {
    exists e :: e in log && Ends(e, runId)
  }

  predicate Registered(pending: map<string, Pending>, runId: string) {
    exists id :: id in pending && pending[id].idempotencyKey == runId
  }

  /** Every prompt that was sent is registered or settled; the registered ones were sent, are not settled, and have
      different runs. */
  ghost predicate LogInv(pending: map<string, Pending>, log: seq<Effect>) {
    (forall runId :: Sent(log, runId) ==> Registered(pending, runId) || Settled(log, runId)) &&
    (forall id :: id in pending ==>
      Sent(log, pending[id].idempotencyKey) && !Settled(log, pending[id].idempotencyKey)) &&
    forall id, other :: id in pending && other in pending ==>
      (pending[id].idempotencyKey == pending[other].idempotencyKey ==> id == other)
  }

  // ---------------------------------------------------------------- one more effect

  lemma LogGrows(log: seq<Effect>, e: Effect, runId: string)
    ensures Sent(log + [e], runId) <==> Sent(log, runId) || (e.SentPrompt? && e.runId == runId)
    ensures Settled(log + [e], runId) <==> Settled(log, runId) || Ends(e, runId)
  {
    var longer := log + [e];
    assert forall x :: x in longer <==> x in log || x == e;
  }

  /** Neither a chunk nor an abort ends or starts a prompt, and a prompt's own progress is not its registration. */
  lemma QuietEffect(pending: map<string, Pending>, next: map<string, Pending>, log: seq<Effect>, e: Effect)
    requires LogInv(pending, log) && (e.MessageChunk? || e.SentAbort?)
    requires next.Keys == pending.Keys && forall id :: id in pending ==>
      next[id].idempotencyKey == pending[id].idempotencyKey
    ensures LogInv(next, log + [e])
  {
    forall runId ensures Sent(log + [e], runId) <==> Sent(log, runId) {
      LogGrows(log, e, runId);
    }
    forall runId ensures Settled(log + [e], runId) <==> Settled(log, runId) {
      LogGrows(log, e, runId);
    }
    hide Sent, Settled;
    forall runId | Registered(pending, runId) ensures Registered(next, runId) {
      var id :| id in pending && pending[id].idempotencyKey == runId;
      assert next[id].idempotencyKey == runId;
    }
  }

  /** Registering a fresh run keeps the account exactly when nothing was registered for its session. */
  lemma SendExactly(pending: map<string, Pending>, log: seq<Effect>, p: Pending)
    requires LogInv(pending, log) && !Sent(log, p.idempotencyKey) && !Settled(log, p.idempotencyKey)
    ensures LogInv(pending[p.sessionId := p], log + [SentPrompt(p.sessionKey, p.idempotencyKey)]) <==>
      p.sessionId !in pending
  {
    var next, e := pending[p.sessionId := p], SentPrompt(p.sessionKey, p.idempotencyKey);
    forall runId ensures Sent(log + [e], runId) <==> Sent(log, runId) || runId == p.idempotencyKey {
      LogGrows(log, e, runId);
    }
    forall runId ensures Settled(log + [e], runId) <==> Settled(log, runId) {
      LogGrows(log, e, runId);
    }
    hide Sent, Settled;
    if p.sessionId in pending {
      var lost := pending[p.sessionId].idempotencyKey;
      assert Sent(log + [e], lost) && !Settled(log + [e], lost);
      assert !Registered(next, lost);
    } else {
      forall runId | Registered(pending, runId) ensures Registered(next, runId) {
        var id :| id in pending && pending[id].idempotencyKey == runId;
        assert id in next && next[id].idempotencyKey == runId;
      }
      assert p.sessionId in next && Registered(next, p.idempotencyKey);
    }
  }

  /** The run is the one registered for the session, or nothing is, and then no other session's. */
  predicate OwnRun(pending: map<string, Pending>, sessionId: string, runId: string) {
    forall id :: id in pending ==> (pending[id].idempotencyKey == runId <==> id == sessionId)
  }

  /** Ending a run together with a session's registration keeps the account exactly when the registration is for that
      run. */
  lemma EndExactly(pending: map<string, Pending>, log: seq<Effect>, sessionId: string, e: Effect)
    requires LogInv(pending, log) && (e.Resolved? || e.Rejected?)
    ensures LogInv(pending - {sessionId}, log + [e]) <==> OwnRun(pending, sessionId, e.runId)
  {
    var next := pending - {sessionId};
    forall runId ensures Sent(log + [e], runId) <==> Sent(log, runId) {
      LogGrows(log, e, runId);
    }
    forall runId ensures Settled(log + [e], runId) <==> Settled(log, runId) || runId == e.runId {
      LogGrows(log, e, runId);
    }
    hide Sent, Settled;
    if OwnRun(pending, sessionId, e.runId) {
      forall runId | Registered(pending, runId) && runId != e.runId ensures Registered(next, runId) {
        var id :| id in pending && pending[id].idempotencyKey == runId;
        assert id in next && next[id].idempotencyKey == runId;
      }
    } else {
      var id :| id in pending && !(pending[id].idempotencyKey == e.runId <==> id == sessionId);
      if id == sessionId {
        var lost := pending[id].idempotencyKey;
        assert Sent(log + [e], lost) && !Registered(next, lost);
      } else {
        assert id in next && Settled(log + [e], next[id].idempotencyKey);
      }
    }
  }

  // ----------------------------------------------------------------------- steps

  lemma FoundOwnRun(a: Agent, sessionKey: string, runId: Option<string>)
    requires PendingFiled(a) && LogInv(a.pending, a.log) && FindPending(a, a.order, sessionKey, runId).Some?
    ensures var p := FindPending(a, a.order, sessionKey, runId).value;
      p.sessionId in a.pending && a.pending[p.sessionId] == p && OwnRun(a.pending, p.sessionId, p.idempotencyKey)
  {
    hide Sent, Settled;
    FoundIsPending(a, a.order, sessionKey, runId);
  }

  lemma DeltaAccounts(a: Agent, sessionId: string, fullText: string)
    requires LogInv(a.pending, a.log)
    ensures var r := Delta(a, sessionId, fullText);
      LogInv(r.pending, r.log) && r.pending.Keys == a.pending.Keys && r.order == a.order &&
      forall id :: id in a.pending ==> r.pending[id].idempotencyKey == a.pending[id].idempotencyKey
  {
    hide LogInv;
    var r := Delta(a, sessionId, fullText);
    if r != a {
      QuietEffect(a.pending, r.pending, a.log, r.log[|a.log|]);
    }
  }

  lemma EventAccounts(a: Agent, sessionKey: string, runId: Option<string>, state: ChatState, snapshot: Option<string>,
      now: int)
    requires PendingFiled(a) && LogInv(a.pending, a.log)
    ensures var r := ChatEvent(a, sessionKey, runId, state, snapshot, now); LogInv(r.pending, r.log)
  {
    hide LogInv, Delta, ClearActive, Without, PendingFiled;
    FiledIds(a);
    var found := FindPending(a, a.order, sessionKey, runId);
    if sessionKey != "" && found.Some? {
      var p := found.value;
      FoundOwnRun(a, sessionKey, runId);
      var shown := if snapshot.Some? && (state.DeltaState? || state.FinalState?)
        then Delta(a, p.sessionId, snapshot.value) else a;
      if snapshot.Some? {
        DeltaAccounts(a, p.sessionId, snapshot.value);
      }
      EndExactly(shown.pending, shown.log, p.sessionId, Resolved(p.idempotencyKey, ReasonOf(state)));
    }
  }

  lemma FiledIds(a: Agent)
    requires PendingFiled(a)
    ensures forall id :: id in a.order <==> id in a.pending
  {}

  /** A disconnect rejects exactly the registered runs. */
  lemma {:induction false} RejectionsEnd(pending: map<string, Pending>, ids: seq<string>, runId: string)
    requires forall id :: id in ids ==> id in pending
    ensures Settled(Rejections(pending, ids), runId) <==> exists id :: id in ids && pending[id].idempotencyKey == runId
    ensures !Sent(Rejections(pending, ids), runId)
    decreases |ids|
  {
    if ids == [] {
    } else {
      var first, rest := [Rejected(pending[ids[0]].idempotencyKey)], Rejections(pending, ids[1..]);
      RejectionsEnd(pending, ids[1..], runId);
      LogsJoin(first, rest, runId);
      assert Settled(first, runId) <==> pending[ids[0]].idempotencyKey == runId by {
        assert first[0] in first;
      }
      assert forall id :: id in ids <==> id == ids[0] || id in ids[1..];
    }
  }

  lemma LogsJoin(a: seq<Effect>, b: seq<Effect>, runId: string)
    ensures Sent(a + b, runId) <==> Sent(a, runId) || Sent(b, runId)
    ensures Settled(a + b, runId) <==> Settled(a, runId) || Settled(b, runId)
  {
    assert forall e :: e in a + b <==> e in a || e in b;
  }

  lemma DisconnectAccounts(a: Agent, now: int)
    requires PendingFiled(a) && LogInv(a.pending, a.log)
    ensures var r := Disconnect(a, now); LogInv(r.pending, r.log)
  {
    var r := Disconnect(a, now);
    var ended := Rejections(a.pending, a.order);
    forall runId ensures Sent(r.log, runId) <==> Sent(a.log, runId) {
      LogsJoin(a.log, ended, runId);
      RejectionsEnd(a.pending, a.order, runId);
    }
    forall runId ensures Settled(r.log, runId) <==> Settled(a.log, runId) || Registered(a.pending, runId) {
      LogsJoin(a.log, ended, runId);
      RejectionsEnd(a.pending, a.order, runId);
    }
  }

  lemma CancelAccounts(a: Agent, sessionId: string, now: int)
    requires LogInv(a.pending, a.log)
    ensures var r := CancelBegin(a, sessionId, now).0; LogInv(r.pending, r.log)
  {
    hide LogInv, CancelActive, Touch;
    var r := CancelBegin(a, sessionId, now).0;
    if r.log != a.log {
      QuietEffect(a.pending, r.pending, a.log, r.log[|a.log|]);
    }
  }

  /** A run id as the program draws it: never used before. */
  ghost predicate FreshRun(a: Agent, s: Step) {
    s.PromptStep? ==> !Sent(a.log, s.runId) && !Settled(a.log, s.runId)
  }

  /** A prompt is accepted only where nothing is registered, and a run is ended by the session that it is registered
      for. */
  ghost predicate KeepsAccount(a: Agent, s: Step) {
    match s
    case PromptStep(id, _, _, fits) => id in a.store.sessions && fits ==> id !in a.pending
    case RequestFailedStep(id, runId) => OwnRun(a.pending, id, runId)
    case CancelEndStep(id, runId) => OwnRun(a.pending, id, runId)
    case FinishStep(id, runId, _) => OwnRun(a.pending, id, runId)
    case _ => true
  }

  lemma PromptAccounts(a: Agent, id: string, runId: string, controller: nat, fits: bool, now: int)
    requires LogInv(a.pending, a.log) && !Sent(a.log, runId) && !Settled(a.log, runId)
    ensures var r := Prompt(a, id, runId, controller, fits, now).0;
      LogInv(r.pending, r.log) <==> (id in a.store.sessions && fits ==> id !in a.pending)
  {
    hide LogInv, CancelActive, SetActive, Touch;
    if id in a.store.sessions && fits {
      SendExactly(a.pending, a.log, Pending(id, a.store.sessions[id].sessionKey, runId, 0, ""));
    }
  }

  /** A step keeps every sent prompt accounted for exactly under that condition. */
  lemma StepAccountsExactly(a: Agent, limits: Limits, s: Step, now: int)
    requires Ordered(a.store) && PendingFiled(a) && LogInv(a.pending, a.log) && FreshRun(a, s)
    ensures var r := Apply(a, limits, s, now); LogInv(r.pending, r.log) <==> KeepsAccount(a, s)
  {
    hide LogInv, Ordered, PendingFiled, Create, Prompt, CancelBegin, Delta, ChatEvent, Disconnect, ClearActive, OwnRun,
      Sent, Settled, Without;
    match s
    case CreateStep(_, _, _) =>
    case TouchStep(_) =>
    case PromptStep(id, runId, controller, fits) => PromptAccounts(a, id, runId, controller, fits, now);
    case RequestFailedStep(id, runId) => EndExactly(a.pending, a.log, id, Rejected(runId));
    case CancelBeginStep(id) => CancelAccounts(a, id, now);
    case CancelEndStep(id, runId) => EndExactly(a.pending, a.log, id, Resolved(runId, Cancelled));
    case SnapshotStep(id, text) => DeltaAccounts(a, id, text);
    case FinishStep(id, runId, reason) => EndExactly(a.pending, a.log, id, Resolved(runId, reason));
    case EventStep(key, run, state, snapshot) => EventAccounts(a, key, run, state, snapshot, now);
    case DisconnectStep => DisconnectAccounts(a, now);
  }

  /** In every run of such steps every prompt that was sent is registered or settled. */
  lemma {:induction false} RunAccounts(limits: Limits, states: seq<Agent>, steps: seq<Step>, times: seq<int>, k: nat)
    requires limits.maxSessions >= 1 && Run(limits, states, steps, times) && k < |states|
    requires forall j :: 0 <= j < |steps| ==> FreshRun(states[j], steps[j]) && KeepsAccount(states[j], steps[j])
    ensures LogInv(states[k].pending, states[k].log)
    decreases k
  {
    hide AgentInv, Apply, Allowed, LogInv, FreshRun, KeepsAccount;
    if k == 0 {
      NothingSent();
    } else {
      RunAccounts(limits, states, steps, times, k - 1);
      RunKeeps(limits, states, steps, times, k - 1);
      AgentParts(states[k - 1], limits);
      InvParts(states[k - 1].store, limits);
      StepAccountsExactly(states[k - 1], limits, steps[k - 1], times[k - 1]);
    }
  }

  lemma NothingSent()
    ensures LogInv(EMPTY_AGENT.pending, EMPTY_AGENT.log)
  {}

  /** A second prompt accepted while the first is registered leaves the first neither registered nor settled. */
  lemma SupersededPromptIsLost(now: int)
    ensures var start := EMPTY_AGENT.(store := Add(EMPTY_STORE, NewSession("s", "k", "/", now)));
      var a := Prompt(Prompt(start, "s", "r1", 1, true, now).0, "s", "r2", 2, true, now).0;
      Sent(a.log, "r1") && !Registered(a.pending, "r1") && !Settled(a.log, "r1")
  {
    hide Prompt;
    var start := EMPTY_AGENT.(store := Add(EMPTY_STORE, NewSession("s", "k", "/", now)));
    PromptEffect(start, "s", "r1", 1, now);
    var a1 := Prompt(start, "s", "r1", 1, true, now).0;
    PromptEffect(a1, "s", "r2", 2, now);
    var a := Prompt(a1, "s", "r2", 2, true, now).0;
    assert a.log == [SentPrompt("k", "r1"), SentPrompt("k", "r2")] && a.log[0] in a.log;
    assert a.pending.Keys == {"s"};
  }
}
