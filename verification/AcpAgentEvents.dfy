// src/acp/session.ts and src/acp/translator.ts: what each operation leaves in the
// session it is for, in the prompts and in the log, and that it touches no other.
module AcpAgentEvents {
  import opened JsText
  import opened AcpSessionModel
  import opened AcpAgentModel

  // ------------------------------------------------------------------- the store

  /** No session but `id` differs. */
  ghost predicate OnlySession(before: Store, after: Store, id: string) {
    after.order == before.order && after.sessions.Keys == before.sessions.Keys &&
    forall other :: other in before.sessions && other != id ==> after.sessions[other] == before.sessions[other]
  }

  /** The session has just been used, and runs nothing. */
  function Rested(s: Session, now: int): Session {
    Session(s.sessionId, s.sessionKey, s.cwd, s.createdAt, now, None, None)
  }

  /** The index no longer knows the run, and still knows all others. */
  ghost predicate Unindexed(before: map<string, string>, after: map<string, string>, run: Option<string>) {
    forall r :: if run == Some(r) && r != "" then r !in after
      else (r in after <==> r in before) && (r in before ==> after[r] == before[r])
  }

  /** What starting, clearing and cancelling a run and touching a session leave behind. */
  lemma RunsExactly(st: Store, id: string, run: string, controller: nat, now: int)
    requires id in st.sessions
    ensures var s, r := st.sessions[id], SetActive(st, id, run, controller, now);
      OnlySession(st, r, id) && r.runs == st.runs[run := id] && r.aborted == st.aborted &&
      r.sessions[id] == Session(s.sessionId, s.sessionKey, s.cwd, s.createdAt, now, Some(controller), Some(run))
    ensures var s, r := st.sessions[id], ClearActive(st, id, now);
      OnlySession(st, r, id) && Unindexed(st.runs, r.runs, s.activeRunId) && r.aborted == st.aborted &&
      r.sessions[id] == Rested(s, now)
    ensures var s, r := st.sessions[id], CancelActive(st, id, now);
      if s.abortController.None? then r == st
      else
        OnlySession(st, r, id) && Unindexed(st.runs, r.runs, s.activeRunId) &&
        r.aborted == st.aborted + {s.abortController.value} && r.sessions[id] == Rested(s, now)
    ensures var s, r := st.sessions[id], Touch(st, id, now);
      OnlySession(st, r, id) && r.runs == st.runs && r.aborted == st.aborted &&
      r.sessions[id] == Session(s.sessionId, s.sessionKey, s.cwd, s.createdAt, now, s.abortController, s.activeRunId)
  {}

  /** Removing a session aborts its controller and forgets its run. */
  lemma RemoveExactly(st: Store, id: string)
    requires Ordered(st)
    ensures var r := Remove(st, id);
      (forall other :: other in r.sessions <==> other in st.sessions && other != id) &&
      (forall other :: other in r.sessions ==> r.sessions[other] == st.sessions[other]) &&
      (forall other :: other in r.order <==> other in st.order && other != id) &&
      (id in st.sessions ==> Unindexed(st.runs, r.runs, st.sessions[id].activeRunId)) &&
      (forall c :: c in r.aborted <==>
        c in st.aborted || (id in st.sessions && st.sessions[id].abortController == Some(c)))
  {
    WithoutMembers(st.order, id);
  }

  /** What a session is idle by: neither a run nor a controller; and stale by: idle, and not touched within the time. */
  lemma StaleExactly(s: Session, limits: Limits, now: int)
    ensures Stale(s, limits, now) <==>
      (s.activeRunId.None? || s.activeRunId.value == "") && s.abortController.None? &&
      now - s.lastTouchedAt >= limits.idleTtlMs
  {}

  /** The limits are those asked for, or 5000 sessions and a day, but at least one session and a second. */
  lemma LimitsExactly(maxSessions: Option<int>, idleTtlMs: Option<int>)
    ensures var l := MakeLimits(maxSessions, idleTtlMs);
      l.maxSessions == (if maxSessions.None? then 5000 else if maxSessions.value < 1 then 1 else maxSessions.value) &&
      l.idleTtlMs == (if idleTtlMs.None? then 86400000 else if idleTtlMs.value < 1000 then 1000 else idleTtlMs.value)
  {}

  // -------------------------------------------------------------------- making room

  function WithoutAll(s: seq<string>, gone: set<string>): seq<string> {
    if s == [] then [] else (if s[0] in gone then [] else [s[0]]) + WithoutAll(s[1..], gone)
  }

  lemma {:induction false} WithoutMore(s: seq<string>, x: string, gone: set<string>)
    ensures WithoutAll(Without(s, x), gone) == WithoutAll(s, gone + {x})
    decreases |s|
  {
    if s == [] {
    } else {
      WithoutMore(s[1..], x, gone);
      var rest := Without(s[1..], x);
      if s[0] == x {
        assert Without(s, x) == [] + rest == rest;
        assert [] + WithoutAll(rest, gone) == WithoutAll(rest, gone);
      } else {
        assert Without(s, x) == [s[0]] + rest && ([s[0]] + rest)[1..] == rest;
      }
    }
  }

  lemma {:induction false} WithoutNone(s: seq<string>)
    ensures WithoutAll(s, {}) == s
    decreases |s|
  {
    if s == [] {
    } else {
      WithoutNone(s[1..]);
      assert s == [s[0]] + s[1..];
    }
  }

  lemma {:induction false} WithoutAllMembers(s: seq<string>, gone: set<string>)
    ensures forall x :: x in WithoutAll(s, gone) <==> x in s && x !in gone
    decreases |s|
  {
    if s == [] {
    } else {
      WithoutAllMembers(s[1..], gone);
      assert forall x :: x in s <==> x == s[0] || x in s[1..];
    }
  }

  /** The stale sessions among some. */
  function StaleOf(st: Store, ids: seq<string>, limits: Limits, now: int): set<string> {
    set id | id in ids && id in st.sessions && Stale(st.sessions[id], limits, now)
  }

  /** Reaping keeps the others in their order. */
  lemma {:induction false} ReapKeepsOrder(st: Store, ids: seq<string>, limits: Limits, now: int)
    requires Ordered(st)
    ensures Reap(st, ids, limits, now).order == WithoutAll(st.order, StaleOf(st, ids, limits, now))
    decreases |ids|
  {
    hide Ordered, Stale, Without;
    if ids == [] {
      assert StaleOf(st, ids, limits, now) == {};
      WithoutNone(st.order);
    } else {
      var x := ids[0];
      var taken := x in st.sessions && Stale(st.sessions[x], limits, now);
      RemoveOrdered(st, x);
      var next := if taken then Remove(st, x) else st;
      ReapKeepsOrder(next, ids[1..], limits, now);
      var gone := StaleOf(next, ids[1..], limits, now);
      if taken {
        WithoutMore(st.order, x, gone);
        assert gone + {x} == StaleOf(st, ids, limits, now);
      } else {
        assert gone == StaleOf(st, ids, limits, now);
      }
    }
  }

  /** What creating a session leaves: the sessions that are not stale, in their order, and the new one behind them; only
      if they are as many as there may be, without the first least recently touched idle one; and without the new one
      if none of them is idle, or that one has the empty id. */
  lemma CreateExactly(st: Store, limits: Limits, id: string, key: string, cwd: string, now: int)
    requires Ordered(st) && id !in st.sessions
    ensures var kept := WithoutAll(st.order, StaleOf(st, st.order, limits, now));
      var (after, ok) := Create(st, limits, id, key, cwd, now);
      (forall other :: other in kept ==> other in st.sessions) &&
      if |kept| < limits.maxSessions then ok && after.order == kept + [id]
      else if ok then exists k: nat :: Evicts(st, kept, k) && after.order == Without(kept, kept[k]) + [id]
      else (forall k: nat :: !Evicts(st, kept, k)) && after.order == kept
  {
    hide Ordered, Reap, Oldest, Stale, Without, WithoutAll, FirstLeast, Remove;
    var kept := WithoutAll(st.order, StaleOf(st, st.order, limits, now));
    var reaped := Reap(st, st.order, limits, now);
    ReapOrdered(st, st.order, limits, now);
    ReapKeepsOrder(st, st.order, limits, now);
    OrderedAll(reaped);
    if |kept| >= limits.maxSessions {
      var oldest := Oldest(reaped, reaped.order, None);
      OldestOfAll(reaped);
      if oldest.Some? {
        var k :| 0 <= k < |kept| && kept[k] == oldest.value && FirstLeast(reaped, kept, k);
        SameLeast(reaped, st, kept, k);
        RemovedOrder(reaped, kept[k]);
        if oldest.value == "" {
          forall j: nat ensures !Evicts(st, kept, j) {
            LeastIsUnique(st, kept, k, j);
          }
        } else {
          assert Evicts(st, kept, k);
        }
      } else {
        NoneIdle(reaped, st, kept);
      }
    }
  }

  /** The `k`-th session makes room. */
  ghost predicate Evicts(st: Store, kept: seq<string>, k: nat)
    requires forall id :: id in kept ==> id in st.sessions
  {
    k < |kept| && FirstLeast(st, kept, k) && kept[k] != ""
  }

  lemma OrderedAll(st: Store)
    requires Ordered(st)
    ensures forall id :: id in st.order <==> id in st.sessions
  {}

  lemma RemovedOrder(st: Store, id: string)
    requires id in st.sessions
    ensures Remove(st, id).order == Without(st.order, id)
  {}

  lemma SameLeast(a: Store, b: Store, ids: seq<string>, k: nat)
    requires forall id :: id in ids ==> id in a.sessions && id in b.sessions && a.sessions[id] == b.sessions[id]
    requires k < |ids|
    ensures FirstLeast(a, ids, k) <==> FirstLeast(b, ids, k)
  {}

  lemma LeastIsUnique(st: Store, ids: seq<string>, k: nat, j: nat)
    requires (forall id :: id in ids ==> id in st.sessions) && k < |ids| && FirstLeast(st, ids, k)
    ensures j < |ids| && FirstLeast(st, ids, j) ==> j == k
  {}

  lemma NoneIdle(a: Store, b: Store, ids: seq<string>)
    requires forall id :: id in ids ==> id in a.sessions && id in b.sessions && a.sessions[id] == b.sessions[id]
    requires forall id :: id in ids ==> Busy(a.sessions[id])
    ensures forall k: nat :: !Evicts(b, ids, k)
  {}

  // ---------------------------------------------------------------- finding a prompt

  /** The event speaks of the prompt: its session key, and its run if the event names one. */
  predicate Addressed(p: Pending, sessionKey: string, runId: Option<string>) {
    p.sessionKey == sessionKey && (runId.None? || runId.value == "" || p.idempotencyKey == runId.value)
  }

  /** The first prompt, in the order of registration, that the event speaks of. */
  lemma {:induction false} FoundFirst(a: Agent, ids: seq<string>, sessionKey: string, runId: Option<string>)
    requires forall id :: id in ids ==> id in a.pending
    ensures var r := FindPending(a, ids, sessionKey, runId);
      if r.Some? then
        exists k :: 0 <= k < |ids| && r.value == a.pending[ids[k]] && Addressed(r.value, sessionKey, runId) &&
          forall j :: 0 <= j < k ==> !Addressed(a.pending[ids[j]], sessionKey, runId)
      else forall id :: id in ids ==> !Addressed(a.pending[id], sessionKey, runId)
    decreases |ids|
  {
    if ids == [] {
    } else if Addressed(a.pending[ids[0]], sessionKey, runId) {
      assert FindPending(a, ids, sessionKey, runId).value == a.pending[ids[0]];
    } else {
      FoundFirst(a, ids[1..], sessionKey, runId);
      var r := FindPending(a, ids, sessionKey, runId);
      if r.Some? {
        var k :| 0 <= k < |ids| - 1 && r.value == a.pending[ids[1..][k]] && Addressed(r.value, sessionKey, runId) &&
          forall j :: 0 <= j < k ==> !Addressed(a.pending[ids[1..][j]], sessionKey, runId);
        assert ids[k + 1] == ids[1..][k];
        assert forall j :: 0 < j < k + 1 ==> ids[j] == ids[1..][j - 1];
      }
    }
  }

  // --------------------------------------------------------------------- the handlers

  /** The prompt of the session is no longer registered; every other is, unchanged and in the same order. */
  ghost predicate Ended(before: Agent, after: Agent, id: string) {
    id !in after.pending && id !in after.order && after.order == Without(before.order, id) &&
    (forall other :: other in after.pending <==> other in before.pending && other != id) &&
    forall other :: other in after.pending ==> after.pending[other] == before.pending[other]
  }

  /** A prompt's session runs nothing any more. */
  ghost predicate RunEnded(before: Store, after: Store, id: string, now: int) {
    OnlySession(before, after, id) && after.aborted == before.aborted &&
    (if id in before.sessions then
      after.sessions[id] == Rested(before.sessions[id], now) &&
      Unindexed(before.runs, after.runs, before.sessions[id].activeRunId)
    else after.runs == before.runs)
  }

  lemma EndsExactly(a: Agent, id: string, runId: string, reason: StopReason, now: int)
    ensures var r := RequestFailed(a, id, runId, now);
      Ended(a, r, id) && RunEnded(a.store, r.store, id, now) && r.log == a.log + [Rejected(runId)]
    ensures var r := Finish(a, id, runId, reason, now);
      Ended(a, r, id) && RunEnded(a.store, r.store, id, now) && r.log == a.log + [Resolved(runId, reason)]
    ensures var r := CancelEnd(a, id, runId);
      Ended(a, r, id) && r.store == a.store && r.log == a.log + [Resolved(runId, Cancelled)]
  {
    WithoutMembers(a.order, id);
  }

  /** A prompt of a known session first aborts what the session runs; one that fits then becomes the session's run, is
      registered and sent under a new run id, and one that does not fit leaves only that abort behind. */
  lemma PromptExactly(a: Agent, id: string, runId: string, controller: nat, fits: bool, now: int)
    ensures var (r, ok) := Prompt(a, id, runId, controller, fits, now);
      if id !in a.store.sessions then !ok && r == a
      else
        var s := a.store.sessions[id];
        var running := s.abortController.Some?;
        ok == fits && OnlySession(a.store, r.store, id) &&
        (forall c :: c in r.store.aborted <==> c in a.store.aborted || s.abortController == Some(c)) &&
        if fits then
          r.store.sessions[id] ==
            Session(s.sessionId, s.sessionKey, s.cwd, s.createdAt, now, Some(controller), Some(runId)) &&
          r.store.runs == (if running then RunsWithout(a.store.runs, s.activeRunId) else a.store.runs)[runId := id] &&
          r.pending == a.pending[id := Pending(id, s.sessionKey, runId, 0, "")] &&
          r.order == (if id in a.pending then a.order else a.order + [id]) &&
          r.log == a.log + [SentPrompt(s.sessionKey, runId)]
        else
          r.pending == a.pending && r.order == a.order && r.log == a.log &&
          r.store.sessions[id] == (if running then Rested(s, now) else s.(lastTouchedAt := now))
  {}

  /** A cancel aborts what the session runs and tells the gateway to abort the run, the session's or else its registered
      prompt's, if there is one; it will then resolve the prompt registered at this moment. */
  lemma CancelExactly(a: Agent, id: string, now: int)
    ensures var (r, resolving) := CancelBegin(a, id, now);
      r.pending == a.pending && r.order == a.order &&
      if id !in a.store.sessions then r == a && resolving == None
      else
        var s := a.store.sessions[id];
        var registered := if id in a.pending then Some(a.pending[id].idempotencyKey) else None;
        var run := if s.activeRunId.Some? then s.activeRunId else registered;
        OnlySession(a.store, r.store, id) &&
        r.store.sessions[id] == (if s.abortController.Some? then Rested(s, now) else s.(lastTouchedAt := now)) &&
        (forall c :: c in r.store.aborted <==> c in a.store.aborted || s.abortController == Some(c)) &&
        if run.Some? && run.value != "" then
          r.log == a.log + [SentAbort(s.sessionKey, run.value)] && resolving == registered
        else r.log == a.log && resolving == None
  {}

  /** A disconnect rejects every registered prompt once, in the order of registration, and sends nothing else. */
  lemma DisconnectExactly(a: Agent, now: int)
    requires PendingFiled(a)
    ensures var r := Disconnect(a, now);
      r.order == [] && r.pending == map[] && |r.log| == |a.log| + |a.order| && a.log <= r.log &&
      forall k :: 0 <= k < |a.order| ==> r.log[|a.log| + k] == Rejected(a.pending[a.order[k]].idempotencyKey)
  {
    RejectionsInOrder(a.pending, a.order);
  }

  lemma {:induction false} RejectionsInOrder(pending: map<string, Pending>, ids: seq<string>)
    requires forall id :: id in ids ==> id in pending
    ensures var r := Rejections(pending, ids);
      |r| == |ids| && forall k :: 0 <= k < |ids| ==> r[k] == Rejected(pending[ids[k]].idempotencyKey)
    decreases |ids|
  {
    if ids == [] {
    } else {
      RejectionsInOrder(pending, ids[1..]);
    }
  }

  /** The snapshot of a delta or final event has something that the client has not been sent. */
  predicate Brings(p: Pending, state: ChatState, snapshot: Option<string>) {
    (state.DeltaState? || state.FinalState?) && snapshot.Some? && |snapshot.value| > p.sentTextLength
  }

  /** What an event adds to the log for a prompt: the unsent end of its snapshot, and then the answer. */
  ghost predicate Reports(p: Pending, state: ChatState, snapshot: Option<string>, added: seq<Effect>) {
    var shown := if Brings(p, state, snapshot)
      then [MessageChunk(p.sessionId, snapshot.value[p.sentTextLength..])] else [];
    match state
    case DeltaState => added == shown
    case OtherState => added == shown
    case FinalState(stop) =>
      added == shown + [Resolved(p.idempotencyKey, if stop == Some("max_tokens") then MaxTokens else EndTurn)]
    case ErrorState => added == shown + [Resolved(p.idempotencyKey, EndTurn)]
    case AbortedState => added == shown + [Resolved(p.idempotencyKey, Cancelled)]
  }

  lemma DeltaExactly(a: Agent, id: string, text: string)
    requires id in a.pending
    ensures var p, r := a.pending[id], Delta(a, id, text);
      r.store == a.store && r.order == a.order &&
      if |text| > p.sentTextLength then
        r.log == a.log + [MessageChunk(id, text[p.sentTextLength..])] &&
        r.pending == a.pending[id := p.(sentTextLength := |text|, sentText := text)]
      else r == a
  {}

  lemma LogGrew(log: seq<Effect>, more: seq<Effect>)
    ensures log <= log + more && (log + more)[|log|..] == more && log + [] == log
  {}

  /** An event of a session key that a prompt waits for: what the client is told, that a final, aborted or error state
      ends the prompt and its run, and that any other state leaves it registered with the snapshot it has been sent. */
  lemma ChatEventExactly(a: Agent, sessionKey: string, runId: Option<string>, state: ChatState,
      snapshot: Option<string>, now: int)
    requires PendingFiled(a)
    ensures var r := ChatEvent(a, sessionKey, runId, state, snapshot, now);
      var found := FindPending(a, a.order, sessionKey, runId);
      if sessionKey == "" || found.None? then r == a
      else
        var p := found.value;
        a.log <= r.log && Reports(p, state, snapshot, r.log[|a.log|..]) &&
        if state.DeltaState? || state.OtherState? then
          r.store == a.store && r.order == a.order &&
          r.pending == if Brings(p, state, snapshot)
            then a.pending[p.sessionId := p.(sentTextLength := |snapshot.value|, sentText := snapshot.value)]
            else a.pending
        else Ended(a, r, p.sessionId) && RunEnded(a.store, r.store, p.sessionId, now)
  {
    hide Without, ClearActive, Ended, RunEnded, Delta, Unregister;
    FoundIsPending(a, a.order, sessionKey, runId);
    var found := FindPending(a, a.order, sessionKey, runId);
    if sessionKey != "" && found.Some? {
      var p := found.value;
      var text := if Brings(p, state, snapshot)
        then [MessageChunk(p.sessionId, snapshot.value[p.sentTextLength..])] else [];
      DeltaExactly(a, p.sessionId, if snapshot.Some? then snapshot.value else "");
      var shown := if snapshot.Some? && (state.DeltaState? || state.FinalState?)
        then Delta(a, p.sessionId, snapshot.value) else a;
      var answer := Resolved(p.idempotencyKey, ReasonOf(state));
      LogGrew(a.log, text);
      LogGrew(a.log, text + [answer]);
      assert a.log + text + [answer] == a.log + (text + [answer]);
      EndsExactly(shown, p.sessionId, p.idempotencyKey, ReasonOf(state), now);
      EndedToo(a, shown, ChatEvent(a, sessionKey, runId, state, snapshot, now), p.sessionId);
    }
  }

  /** Progress of the prompt that ends makes no difference to what is left. */
  lemma EndedToo(a: Agent, shown: Agent, r: Agent, id: string)
    requires shown.order == a.order && shown.pending.Keys == a.pending.Keys
    requires forall other :: other in a.pending && other != id ==> shown.pending[other] == a.pending[other]
    ensures Ended(shown, r, id) ==> Ended(a, r, id)
  {}
}
