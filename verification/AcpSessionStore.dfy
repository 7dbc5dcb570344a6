// src/acp/session.ts: the store as the closures of the source run it, over
// session objects that are updated in place.
module AcpSessionStoreModel {
  import opened JsText
  import opened AcpSessionModel

  class AcpSession {
    const sessionId: string
    const createdAt: int
    var sessionKey: string
    var cwd: string
    var lastTouchedAt: int
    var abortController: Option<nat>
    var activeRunId: Option<string>

    constructor (s: Session)
      ensures View() == s
    {
      sessionId, createdAt := s.sessionId, s.createdAt;
      sessionKey, cwd, lastTouchedAt := s.sessionKey, s.cwd, s.lastTouchedAt;
      abortController, activeRunId := s.abortController, s.activeRunId;
    }

    function View(): Session
      reads this
    {
      Session(sessionId, sessionKey, cwd, createdAt, lastTouchedAt, abortController, activeRunId)
    }
  }

  class AcpSessionStore {
    const limits: Limits
    var sessions: map<string, AcpSession>
    var order: seq<string>
    var runIdToSessionId: map<string, string>
    var aborted: set<nat>

    ghost predicate Valid()
      reads this, sessions.Values
    {
      Ordered(View())
    }

    /** The store's value: what the model in AcpSessionModel speaks about. */
    ghost function View(): Store
      reads this, sessions.Values
    {
      Store(order, SessionsView(), runIdToSessionId, aborted)
    }

    ghost function SessionsView(): map<string, Session>
      reads this`sessions, sessions.Values
    {
      map id | id in sessions :: sessions[id].View()
    }

    constructor (maxSessions: Option<int>, idleTtlMs: Option<int>)
      ensures Valid() && View() == EMPTY_STORE && limits == MakeLimits(maxSessions, idleTtlMs)
      ensures fresh(sessions.Values)
    {
      limits := MakeLimits(maxSessions, idleTtlMs);
      sessions, order, runIdToSessionId, aborted := map[], [], map[], {};
    }

    method RemoveSession(sessionId: string) returns (removed: bool)
      requires Valid()
      modifies this
      ensures Valid() && View() == Remove(old(View()), sessionId)
      ensures sessions == old(sessions) - {sessionId}
      ensures removed == (sessionId in old(sessions))
    {
      hide Ordered, Without, SessionsView;
      RemoveOrdered(View(), sessionId);
      AllSessions();
      ghost var before := View();
      if sessionId !in sessions {
        assert sessions - {sessionId} == sessions;
        return false;
      }
      var session := sessions[sessionId];
      if Truthy(session.activeRunId) {
        runIdToSessionId := runIdToSessionId - {session.activeRunId.value};
      }
      if session.abortController.Some? {
        aborted := aborted + {session.abortController.value};
      }
      sessions := sessions - {sessionId};
      order := Without(order, sessionId);
      SessionsWithout(before.sessions, sessionId);
      assert View() == Remove(before, sessionId);
      removed := true;
    }

    lemma AllSessions()
      ensures SessionsView().Keys == sessions.Keys && forall id :: id in sessions ==>
        SessionsView()[id] == sessions[id].View()
    {}

    lemma SessionsWithout(before: map<string, Session>, sessionId: string)
      requires sessions.Keys == before.Keys - {sessionId}
      requires forall id :: id in sessions ==> id in before && before[id] == sessions[id].View()
      ensures SessionsView() == before - {sessionId}
    {}

    method ReapIdleSessions(nowMs: int)
      requires Valid()
      modifies this
      ensures Valid() && View() == Reap(old(View()), old(order), limits, nowMs)
      ensures sessions.Values <= old(sessions.Values)
    {
      hide Ordered;
      var ids := order;
      assert ids[0..] == ids;
      for k := 0 to |ids|
        invariant Valid() && sessions.Values <= old(sessions.Values)
        invariant Reap(View(), ids[k..], limits, nowMs) == Reap(old(View()), old(order), limits, nowMs)
      {
        assert ids[k..][0] == ids[k] && ids[k..][1..] == ids[k + 1..];
        if ids[k] in sessions {
          var session := sessions[ids[k]];
          if !(Truthy(session.activeRunId) || session.abortController.Some?) &&
            session.lastTouchedAt <= nowMs - limits.idleTtlMs {
            var removed := RemoveSession(ids[k]);
          }
        }
      }
    }

    method EvictOldestIdleSession() returns (evicted: bool)
      requires Valid()
      modifies this
      ensures Valid() && sessions.Values <= old(sessions.Values)
      ensures var oldest := Oldest(old(View()), old(order), None);
        evicted == Truthy(oldest) && View() == if evicted then Remove(old(View()), oldest.value) else old(View())
    {
      var oldestSessionId: Option<string> := None;
      assert order[0..] == order;
      for k := 0 to |order|
        invariant oldestSessionId.Some? ==> oldestSessionId.value in sessions
        invariant Oldest(View(), order[k..], oldestSessionId) == Oldest(View(), order, None)
      {
        assert order[k..][0] == order[k] && order[k..][1..] == order[k + 1..] && order[k] in View().sessions;
        var session := sessions[order[k]];
        if !(Truthy(session.activeRunId) || session.abortController.Some?) &&
           (oldestSessionId.None? || session.lastTouchedAt < sessions[oldestSessionId.value].lastTouchedAt) {
          oldestSessionId := Some(order[k]);
        }
      }
      OldestOfAll(View());
      if !Truthy(oldestSessionId) {
        return false;
      }
      evicted := RemoveSession(oldestSessionId.value);
    }

    /** Distinct ids name distinct session objects. */
    ghost predicate Apart(sessionId: string)
      reads this, sessions.Values
    {
      sessionId in sessions && forall other :: other in sessions && other != sessionId ==>
        sessions[other] != sessions[sessionId]
    }

    lemma ValidApart(sessionId: string)
      requires Valid() && sessionId in sessions
      ensures Apart(sessionId)
    {
      forall other | other in sessions && other != sessionId ensures sessions[other] != sessions[sessionId] {
        assert View().sessions[other].sessionId == other && View().sessions[sessionId].sessionId == sessionId;
      }
    }

    method RefreshSession(sessionId: string, sessionKey: string, cwd: string, nowMs: int)
      requires Valid() && sessionId in sessions
      modifies sessions.Values
      ensures Valid() && sessions == old(sessions)
      ensures View() == old(View()).(sessions := old(View()).sessions[sessionId :=
        old(View()).sessions[sessionId].(sessionKey := sessionKey, cwd := cwd, lastTouchedAt := nowMs)])
    {
      ValidApart(sessionId);
      hide Ordered;
      ghost var before := View();
      ghost var s := before.sessions[sessionId].(sessionKey := sessionKey, cwd := cwd, lastTouchedAt := nowMs);
      OrderedId(before, sessionId);
      RefreshOrdered(before, sessionId, s);
      var existingSession := sessions[sessionId];
      existingSession.sessionKey := sessionKey;
      existingSession.cwd := cwd;
      existingSession.lastTouchedAt := nowMs;
      assert View().sessions == before.sessions[sessionId := s];
    }

    method AddSession(sessionId: string, sessionKey: string, cwd: string, nowMs: int) returns (session: AcpSession)
      requires Valid() && sessionId !in sessions
      modifies this
      ensures Valid() && View() == Add(old(View()), NewSession(sessionId, sessionKey, cwd, nowMs))
      ensures fresh(session) && sessions == old(sessions)[sessionId := session]
    {
      hide Ordered;
      ghost var before := View();
      AddOrdered(before, NewSession(sessionId, sessionKey, cwd, nowMs));
      session := new AcpSession(NewSession(sessionId, sessionKey, cwd, nowMs));
      sessions := sessions[sessionId := session];
      order := order + [sessionId];
      assert View() == Add(before, NewSession(sessionId, sessionKey, cwd, nowMs));
    }

    /** Refreshes or creates the session; fails when no room can be made. */
    method CreateSession(sessionId: string, sessionKey: string, cwd: string, nowMs: int) returns (r: Option<AcpSession>)
      requires Valid()
      modifies this, sessions.Values
      ensures Valid() && (View(), r.Some?) == Create(old(View()), limits, sessionId, sessionKey, cwd, nowMs)
      ensures r.Some? ==> sessionId in sessions && r.value == sessions[sessionId]
      ensures sessionId in old(sessions) ==> sessions == old(sessions)
      ensures forall s :: s in sessions.Values ==> s in old(sessions.Values) || fresh(s)
    {
      hide Ordered, Reap, Oldest, Busy, Stale;
      if sessionId in sessions {
        RefreshSession(sessionId, sessionKey, cwd, nowMs);
        return Some(sessions[sessionId]);
      }
      ghost var before := View();
      ReapOrdered(before, order, limits, nowMs);
      ReapIdleSessions(nowMs);
      assert sessionId !in View().sessions;
      if |order| >= limits.maxSessions {
        var evicted := EvictOldestIdleSession();
        if !evicted {
          return None;
        }
        assert sessionId !in View().sessions;
      }
      var session := AddSession(sessionId, sessionKey, cwd, nowMs);
      r := Some(session);
    }

    method GetSession(sessionId: string, nowMs: int) returns (r: Option<AcpSession>)
      requires Valid()
      modifies sessions.Values
      ensures Valid() && sessions == old(sessions) && View() == Touch(old(View()), sessionId, nowMs)
      ensures r == if sessionId in sessions then Some(sessions[sessionId]) else None
      ensures if r.Some? then sessionId in View().sessions && r.value.View() == View().sessions[sessionId]
        else sessionId !in View().sessions
    {
      if sessionId !in sessions {
        return None;
      }
      var session := sessions[sessionId];
      session.lastTouchedAt := nowMs;
      r := Some(session);
    }

    method GetSessionByRunId(runId: string, nowMs: int) returns (r: Option<AcpSession>)
      requires Valid()
      modifies sessions.Values
      ensures Valid() && sessions == old(sessions)
      ensures if runId in runIdToSessionId && runIdToSessionId[runId] != "" then
          View() == Touch(old(View()), runIdToSessionId[runId], nowMs) &&
          r == if runIdToSessionId[runId] in sessions then Some(sessions[runIdToSessionId[runId]]) else None
        else View() == old(View()) && r == None
    {
      if runId !in runIdToSessionId || runIdToSessionId[runId] == "" {
        return None;
      }
      r := GetSession(runIdToSessionId[runId], nowMs);
    }

    /** The three assignments with which every change of the active run ends. */
    method AssignRun(sessionId: string, runId: Option<string>, abortController: Option<nat>, nowMs: int)
      requires Valid() && sessionId in sessions
      modifies sessions.Values
      ensures Valid() && sessions == old(sessions)
      ensures View() == old(View()).(sessions := old(View()).sessions[sessionId :=
        old(View()).sessions[sessionId].(activeRunId := runId, abortController := abortController,
          lastTouchedAt := nowMs)])
    {
      ValidApart(sessionId);
      hide Ordered;
      ghost var before := View();
      ghost var s := before.sessions[sessionId].(activeRunId := runId, abortController := abortController,
        lastTouchedAt := nowMs);
      OrderedId(before, sessionId);
      RefreshOrdered(before, sessionId, s);
      var session := sessions[sessionId];
      session.activeRunId := runId;
      session.abortController := abortController;
      session.lastTouchedAt := nowMs;
      assert View().sessions == before.sessions[sessionId := s];
    }

    lemma SessionAt(sessionId: string)
      ensures sessionId in View().sessions <==> sessionId in sessions
      ensures sessionId in sessions ==> View().sessions[sessionId] == sessions[sessionId].View()
    {}

    method SetActiveRun(sessionId: string, runId: string, abortController: nat, nowMs: int)
      requires Valid()
      modifies this`runIdToSessionId, sessions.Values
      ensures Valid() && sessions == old(sessions) &&
        View() == SetActive(old(View()), sessionId, runId, abortController, nowMs)
    {
      hide Ordered, SessionsView;
      ghost var before := View();
      UpdateOrdered(before, sessionId, runId, abortController, nowMs);
      SessionAt(sessionId);
      if sessionId !in sessions {
        return;
      }
      AssignRun(sessionId, Some(runId), Some(abortController), nowMs);
      runIdToSessionId := runIdToSessionId[runId := sessionId];
      assert View() == SetActive(before, sessionId, runId, abortController, nowMs);
    }

    method ClearActiveRun(sessionId: string, nowMs: int)
      requires Valid()
      modifies this`runIdToSessionId, sessions.Values
      ensures Valid() && sessions == old(sessions) && View() == ClearActive(old(View()), sessionId, nowMs)
    {
      hide Ordered, SessionsView;
      ghost var before := View();
      UpdateOrdered(before, sessionId, "", 0, nowMs);
      SessionAt(sessionId);
      if sessionId !in sessions {
        return;
      }
      var active := sessions[sessionId].activeRunId;
      AssignRun(sessionId, None, None, nowMs);
      if Truthy(active) {
        runIdToSessionId := runIdToSessionId - {active.value};
      }
      assert View() == ClearActive(before, sessionId, nowMs);
    }

    method CancelActiveRun(sessionId: string, nowMs: int) returns (cancelled: bool)
      requires Valid()
      modifies this`runIdToSessionId, this`aborted, sessions.Values
      ensures Valid() && sessions == old(sessions) && View() == CancelActive(old(View()), sessionId, nowMs)
      ensures cancelled == (sessionId in sessions && old(sessions[sessionId].abortController.Some?))
    {
      hide Ordered, SessionsView;
      ghost var before := View();
      UpdateOrdered(before, sessionId, "", 0, nowMs);
      SessionAt(sessionId);
      if sessionId !in sessions || sessions[sessionId].abortController.None? {
        return false;
      }
      var active, controller := sessions[sessionId].activeRunId, sessions[sessionId].abortController;
      AssignRun(sessionId, None, None, nowMs);
      aborted := aborted + {controller.value};
      if Truthy(active) {
        runIdToSessionId := runIdToSessionId - {active.value};
      }
      assert View() == CancelActive(before, sessionId, nowMs);
      cancelled := true;
    }
  }
}
