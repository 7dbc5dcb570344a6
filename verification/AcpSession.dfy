// src/acp/session.ts: the capacity-bounded session store with its run index.
module AcpSessionModel {
  import opened JsText

  /** A session's fields at one moment.  An abort controller is known by a number. */
  datatype Session = Session(
    sessionId: string, sessionKey: string, cwd: string, createdAt: int, lastTouchedAt: int,
    abortController: Option<nat>, activeRunId: Option<string>)

  /** The store at one moment: `order` is the iteration order of the session map, `aborted` the controllers aborted so
      far. */
  datatype Store = Store(order: seq<string>, sessions: map<string, Session>, runs: map<string, string>,
    aborted: set<nat>)

  datatype Limits = Limits(maxSessions: nat, idleTtlMs: nat)

  const DEFAULT_MAX_SESSIONS := 5000
  const DEFAULT_IDLE_TTL_MS := 24 * 60 * 60 * 1000

  function MakeLimits(maxSessions: Option<int>, idleTtlMs: Option<int>): (l: Limits)
    ensures l.maxSessions >= 1 && l.idleTtlMs >= 1000
  {
    Limits(Max(1, if maxSessions.Some? then maxSessions.value else DEFAULT_MAX_SESSIONS),
           Max(1000, if idleTtlMs.Some? then idleTtlMs.value else DEFAULT_IDLE_TTL_MS))
  }

  const EMPTY_STORE := Store([], map[], map[], {})

  predicate Busy(s: Session) {
    Truthy(s.activeRunId) || s.abortController.Some?
  }

  function Without<T(==)>(s: seq<T>, x: T): seq<T> {
    if s == [] then [] else (if s[0] == x then [] else [s[0]]) + Without(s[1..], x)
  }

  function Controllers(c: Option<nat>): set<nat> {
    if c.Some? then {c.value} else {}
  }

  function RunsWithout(runs: map<string, string>, run: Option<string>): map<string, string> {
    if Truthy(run) then runs - {run.value} else runs
  }

  function Remove(st: Store, id: string): Store {
    if id !in st.sessions then st else
    var s := st.sessions[id];
    Store(Without(st.order, id), st.sessions - {id}, RunsWithout(st.runs, s.activeRunId),
      st.aborted + Controllers(s.abortController))
  }

  predicate Stale(s: Session, limits: Limits, now: int) {
    !Busy(s) && s.lastTouchedAt <= now - limits.idleTtlMs
  }

  /** The reaping loop over the ids it has yet to visit. */
  function Reap(st: Store, ids: seq<string>, limits: Limits, now: int): Store
    decreases |ids|
  {
    if ids == [] then st
    else if ids[0] in st.sessions && Stale(st.sessions[ids[0]], limits, now)
      then Reap(Remove(st, ids[0]), ids[1..], limits, now)
    else Reap(st, ids[1..], limits, now)
  }

  /** The eviction scan: the best idle session so far, if any, and the ids yet to visit. */
  function Oldest(st: Store, ids: seq<string>, best: Option<string>): Option<string>
    requires best.Some? ==> best.value in st.sessions
    requires forall id :: id in ids ==> id in st.sessions
  {
    if ids == [] then best
    else if Busy(st.sessions[ids[0]]) then Oldest(st, ids[1..], best)
    else if best.Some? && st.sessions[ids[0]].lastTouchedAt >= st.sessions[best.value].lastTouchedAt
      then Oldest(st, ids[1..], best)
    else Oldest(st, ids[1..], Some(ids[0]))
  }

  /** The order lists each stored session once, and every session is filed under its own id. */
  ghost predicate Ordered(st: Store) {
    NoDup(st.order) && (forall id :: id in st.order <==> id in st.sessions) &&
    forall id :: id in st.sessions ==> st.sessions[id].sessionId == id
  }

  function NewSession(id: string, key: string, cwd: string, now: int): Session {
    Session(id, key, cwd, now, now, None, None)
  }

  function Add(st: Store, s: Session): Store {
    st.(order := st.order + [s.sessionId], sessions := st.sessions[s.sessionId := s])
  }

  /** The store after creating or refreshing a session, and whether that was possible. */
  function Create(st: Store, limits: Limits, id: string, key: string, cwd: string, now: int): (Store, bool)
    requires Ordered(st)
  {
    if id in st.sessions then
      (st.(sessions := st.sessions[id := st.sessions[id].(sessionKey := key, cwd := cwd, lastTouchedAt := now)]), true)
    else
      var reaped := Reap(st, st.order, limits, now);
      ReapOrdered(st, st.order, limits, now);
      if |reaped.order| < limits.maxSessions then (Add(reaped, NewSession(id, key, cwd, now)), true)
      else
        var oldest := Oldest(reaped, reaped.order, None);
        if Truthy(oldest) then (Add(Remove(reaped, oldest.value), NewSession(id, key, cwd, now)), true)
        else (reaped, false)
  }

  function Touch(st: Store, id: string, now: int): Store {
    if id in st.sessions then st.(sessions := st.sessions[id := st.sessions[id].(lastTouchedAt := now)]) else st
  }

  function SetActive(st: Store, id: string, run: string, controller: nat, now: int): Store {
    if id !in st.sessions then st else
    st.(sessions := st.sessions[id := st.sessions[id].(activeRunId := Some(run), abortController := Some(controller),
      lastTouchedAt := now)],
        runs := st.runs[run := id])
  }

  function ClearActive(st: Store, id: string, now: int): Store {
    if id !in st.sessions then st else
    st.(sessions := st.sessions[id := st.sessions[id].(activeRunId := None, abortController := None,
      lastTouchedAt := now)],
        runs := RunsWithout(st.runs, st.sessions[id].activeRunId))
  }

  function CancelActive(st: Store, id: string, now: int): Store {
    if id !in st.sessions || st.sessions[id].abortController.None? then st else
    ClearActive(st, id, now).(aborted := st.aborted + Controllers(st.sessions[id].abortController))
  }

  // ------------------------------------------------------------- order and removal

  lemma {:induction false} WithoutMembers<T>(s: seq<T>, x: T)
    ensures forall y :: y in Without(s, x) <==> y in s && y != x
    ensures NoDup(s) ==> NoDup(Without(s, x)) && |Without(s, x)| == |s| - if x in s then 1 else 0
    decreases |s|
  {
    if s == [] {
    } else {
      WithoutMembers(s[1..], x);
      assert forall y :: y in s <==> y == s[0] || y in s[1..];
      if NoDup(s) {
        assert s[0] !in s[1..];
        assert NoDup(s[1..]);
      }
    }
  }

  lemma RemoveOrdered(st: Store, id: string)
    requires Ordered(st)
    ensures Ordered(Remove(st, id)) && |Remove(st, id).order| == |st.order| - if id in st.sessions then 1 else 0
    ensures Remove(st, id).sessions == st.sessions - {id}
  {
    WithoutMembers(st.order, id);
    assert id !in st.sessions ==> st.sessions - {id} == st.sessions;
  }

  /** Updating a session's fields keeps the store ordered. */
  lemma UpdateOrdered(st: Store, id: string, run: string, controller: nat, now: int)
    requires Ordered(st)
    ensures Ordered(Touch(st, id, now)) && Ordered(SetActive(st, id, run, controller, now))
    ensures Ordered(ClearActive(st, id, now)) && Ordered(CancelActive(st, id, now))
  {}

  lemma RefreshOrdered(st: Store, id: string, s: Session)
    requires Ordered(st) && id in st.sessions && s.sessionId == id
    ensures Ordered(st.(sessions := st.sessions[id := s]))
  {}

  lemma OrderedId(st: Store, id: string)
    requires Ordered(st)
    ensures (id in st.order <==> id in st.sessions) && (id in st.sessions ==> st.sessions[id].sessionId == id)
  {}

  /** Reaping removes exactly the visited stale sessions and touches nothing else. */
  lemma {:induction false} ReapOrdered(st: Store, ids: seq<string>, limits: Limits, now: int)
    requires Ordered(st)
    ensures var r := Reap(st, ids, limits, now);
      Ordered(r) && |r.order| <= |st.order| &&
        (forall id :: id in r.sessions <==> id in st.sessions && !(id in ids && Stale(st.sessions[id], limits, now))) &&
      (forall id :: id in r.sessions ==> r.sessions[id] == st.sessions[id]) &&
      r.runs == st.runs && r.aborted == st.aborted
    decreases |ids|
  {
    if ids == [] {
    } else {
      RemoveOrdered(st, ids[0]);
      var next := if ids[0] in st.sessions && Stale(st.sessions[ids[0]], limits, now) then Remove(st, ids[0]) else st;
      assert next.runs == st.runs && next.aborted == st.aborted;
      ReapOrdered(next, ids[1..], limits, now);
    }
  }

  /** The scan finds an idle session exactly when there is one, and then a least recently touched one that comes
      first in iteration order among those. */
  lemma {:induction false} OldestIsLeast(st: Store, ids: seq<string>, seen: seq<string>, best: Option<string>)
    requires forall id :: id in seen + ids ==> id in st.sessions
    requires BestOf(st, seen, best)
    ensures BestOf(st, seen + ids, Oldest(st, ids, best))
    decreases |ids|
  {
    if ids == [] {
      assert seen + ids == seen;
    } else {
      assert ids[0] in seen + ids;
      var next := if Busy(st.sessions[ids[0]]) then best
        else if best.Some? && st.sessions[ids[0]].lastTouchedAt >= st.sessions[best.value].lastTouchedAt then best
        else Some(ids[0]);
      BestExtends(st, seen, best, ids[0]);
      assert seen + ids == seen + [ids[0]] + ids[1..];
      OldestIsLeast(st, ids[1..], seen + [ids[0]], next);
    }
  }

  /** The `k`-th id is idle, every idle one before it was touched later, and none was touched earlier. */
  ghost predicate FirstLeast(st: Store, ids: seq<string>, k: nat)
    requires (forall id :: id in ids ==> id in st.sessions) && k < |ids|
  {
    var least := st.sessions[ids[k]];
    !Busy(least) &&
    (forall j :: 0 <= j < k ==> Busy(st.sessions[ids[j]]) || st.sessions[ids[j]].lastTouchedAt > least.lastTouchedAt) &&
    (forall j :: 0 <= j < |ids| ==>
      Busy(st.sessions[ids[j]]) || st.sessions[ids[j]].lastTouchedAt >= least.lastTouchedAt)
  }

  ghost predicate BestOf(st: Store, ids: seq<string>, best: Option<string>)
    requires forall id :: id in ids ==> id in st.sessions
  {
    if best.None? then forall id :: id in ids ==> Busy(st.sessions[id])
    else exists k :: 0 <= k < |ids| && ids[k] == best.value && FirstLeast(st, ids, k)
  }

  lemma BestExtends(st: Store, ids: seq<string>, best: Option<string>, id: string)
    requires (forall x :: x in ids ==> x in st.sessions) && id in st.sessions && BestOf(st, ids, best)
    ensures var next := if Busy(st.sessions[id]) then best
        else if best.Some? && st.sessions[id].lastTouchedAt >= st.sessions[best.value].lastTouchedAt then best
          else Some(id);
      BestOf(st, ids + [id], next)
  {
    var more := ids + [id];
    if best.Some? {
      var k :| 0 <= k < |ids| && ids[k] == best.value && FirstLeast(st, ids, k);
      if Busy(st.sessions[id]) || st.sessions[id].lastTouchedAt >= st.sessions[best.value].lastTouchedAt {
        assert more[k] == best.value && FirstLeast(st, more, k);
      } else {
        assert more[|ids|] == id && FirstLeast(st, more, |ids|);
      }
    } else if !Busy(st.sessions[id]) {
      assert forall j :: 0 <= j < |ids| ==> ids[j] in ids;
      assert more[|ids|] == id && FirstLeast(st, more, |ids|);
    }
  }

  // ------------------------------------------------------------------- creation

  /** A busy session survives unchanged, apart from being refreshed by its own client. */
  ghost predicate SparesBusy(before: Store, after: Store, id: string) {
    forall other :: other in before.sessions && other != id && Busy(before.sessions[other]) ==>
      other in after.sessions && after.sessions[other] == before.sessions[other]
  }

  lemma OldestOfAll(st: Store)
    requires Ordered(st)
    ensures BestOf(st, st.order, Oldest(st, st.order, None))
    ensures var o := Oldest(st, st.order, None); o.Some? ==> o.value in st.sessions && !Busy(st.sessions[o.value])
  {
    OldestIsLeast(st, st.order, [], None);
    assert [] + st.order == st.order;
  }

  /** Creation keeps the store ordered, within its capacity, and never disturbs a busy session or the run index. */
  lemma CreateLaw(st: Store, limits: Limits, id: string, key: string, cwd: string, now: int)
    requires Ordered(st) && |st.order| <= limits.maxSessions && limits.maxSessions >= 1
    ensures var (after, ok) := Create(st, limits, id, key, cwd, now);
      Ordered(after) && |after.order| <= limits.maxSessions && SparesBusy(st, after, id) && after.runs == st.runs &&
        after.aborted == st.aborted &&
      (forall other :: other in after.sessions && other != id ==>
        other in st.sessions && after.sessions[other] == st.sessions[other]) &&
      (ok <==> id in after.sessions) &&
      (ok ==> after.sessions[id].sessionKey == key && after.sessions[id].cwd == cwd) &&
      (ok ==> after.sessions[id].lastTouchedAt == now) &&
      (id in st.sessions ==>
        ok && after.sessions[id] == st.sessions[id].(sessionKey := key, cwd := cwd, lastTouchedAt := now)) &&
      (ok && id !in st.sessions ==> after.sessions[id] == NewSession(id, key, cwd, now))
  {
    hide Reap, Oldest, Without, NoDup, Ordered, Remove, Busy;
    if id in st.sessions {
      OrderedId(st, id);
      RefreshOrdered(st, id, st.sessions[id].(sessionKey := key, cwd := cwd, lastTouchedAt := now));
    } else {
      var reaped := Reap(st, st.order, limits, now);
      ReapOrdered(st, st.order, limits, now);
      BusyNotStale(limits, now);
      OldestOfAll(reaped);
      var oldest := Oldest(reaped, reaped.order, None);
      if |reaped.order| < limits.maxSessions {
        AddOrdered(reaped, NewSession(id, key, cwd, now));
      } else if Truthy(oldest) {
        RemoveOrdered(reaped, oldest.value);
        IdleRemoved(reaped, oldest.value);
        AddOrdered(Remove(reaped, oldest.value), NewSession(id, key, cwd, now));
      }
    }
  }

  lemma BusyNotStale(limits: Limits, now: int)
    ensures forall s: Session :: Busy(s) ==> !Stale(s, limits, now)
  {}

  lemma IdleRemoved(st: Store, id: string)
    requires id in st.sessions && !Busy(st.sessions[id])
    ensures Remove(st, id).runs == st.runs && Remove(st, id).aborted == st.aborted
  {}

  lemma AddOrdered(st: Store, s: Session)
    requires Ordered(st) && s.sessionId !in st.sessions
    ensures Ordered(Add(st, s))
  {
    assert forall id :: id in Add(st, s).order <==> id in st.order || id == s.sessionId;
  }

  /** The session with the empty id is idle, every idle one before it was touched later, and none was touched
      earlier. */
  ghost predicate EmptyIdFirst(st: Store)
    requires Ordered(st)
  {
    exists k :: 0 <= k < |st.order| && st.order[k] == "" && FirstLeast(st, st.order, k)
  }

  lemma EmptyIdPicked(st: Store)
    requires Ordered(st)
    ensures Oldest(st, st.order, None) == Some("") <==> EmptyIdFirst(st)
  {
    hide Oldest;
    OldestOfAll(st);
  }

  /** Creation fails exactly when the session is new, the store is full of sessions that are not stale, and all of
      them are busy or the one that would make room has the empty id, which the scan mistakes for none. */
  lemma CreateFailsExactly(st: Store, limits: Limits, id: string, key: string, cwd: string, now: int)
    requires Ordered(st) && |st.order| <= limits.maxSessions
    ensures !Create(st, limits, id, key, cwd, now).1 <==>
      id !in st.sessions && |st.order| == limits.maxSessions &&
      (forall other :: other in st.sessions ==> !Stale(st.sessions[other], limits, now)) &&
      ((forall other :: other in st.sessions ==> Busy(st.sessions[other])) || EmptyIdFirst(st))
  {
    EmptyIdPicked(st);
    if id !in st.sessions {
      var reaped := Reap(st, st.order, limits, now);
      ReapOrdered(st, st.order, limits, now);
      if forall other :: other in st.sessions ==> !Stale(st.sessions[other], limits, now) {
        ReapNothing(st, st.order, limits, now);
        OldestOfAll(st);
      } else {
        var other :| other in st.sessions && Stale(st.sessions[other], limits, now);
        assert other in st.order && other !in reaped.sessions;
        FewerKeys(st, reaped, other);
      }
    }
  }

  /** A store for one session that holds an idle session with the empty id has no room for another. */
  lemma EmptyIdBlocks()
    ensures var limits := Limits(1, 1000);
      var st := Create(EMPTY_STORE, limits, "", "k", "/", 0).0;
      "" in st.sessions && !Busy(st.sessions[""]) && !Create(st, limits, "s", "k", "/", 1).1
  {
    var limits, first := Limits(1, 1000), NewSession("", "k", "/", 0);
    var st := Create(EMPTY_STORE, limits, "", "k", "/", 0).0;
    assert Reap(EMPTY_STORE, [], limits, 0) == EMPTY_STORE && [] + [""] == [""];
    assert st == Store([""], map["" := first], map[], {});
    assert st.order[0] == "" && FirstLeast(st, st.order, 0);
    CreateFailsExactly(st, limits, "s", "k", "/", 1);
  }

  lemma {:induction false} ReapNothing(st: Store, ids: seq<string>, limits: Limits, now: int)
    requires forall id :: id in st.sessions ==> !Stale(st.sessions[id], limits, now)
    ensures Reap(st, ids, limits, now) == st
    decreases |ids|
  {
    if ids == [] {
    } else {
      ReapNothing(st, ids[1..], limits, now);
    }
  }

  lemma FewerKeys(big: Store, small: Store, id: string)
    requires Ordered(big) && Ordered(small) && id in big.sessions && id !in small.sessions
    requires forall other :: other in small.sessions ==> other in big.sessions
    ensures |small.order| < |big.order|
  {
    OrderSize(big.order, big.sessions.Keys);
    OrderSize(small.order, small.sessions.Keys);
    assert small.sessions.Keys <= big.sessions.Keys - {id};
    SubsetSize(small.sessions.Keys, big.sessions.Keys - {id});
  }

  lemma {:induction false} OrderSize<T>(s: seq<T>, keys: set<T>)
    requires NoDup(s) && forall x :: x in s <==> x in keys
    ensures |s| == |keys|
    decreases |s|
  {
    if s == [] {
      assert keys == {};
    } else {
      assert s[0] in keys && s[0] !in s[1..];
      OrderSize(s[1..], keys - {s[0]});
    }
  }

  // -------------------------------------------------------------------- run index

  /** A session has an active run exactly when it has an abort controller. */
  ghost predicate RunsHaveControllers(st: Store) {
    forall id :: id in st.sessions ==> (st.sessions[id].activeRunId.None? <==> st.sessions[id].abortController.None?)
  }

  /** The run index is the inverse of the active runs. */
  ghost predicate IndexInverse(st: Store) {
    (forall r :: r in st.runs ==> st.runs[r] in st.sessions && st.sessions[st.runs[r]].activeRunId == Some(r)) &&
    forall id :: id in st.sessions && st.sessions[id].activeRunId.Some? ==>
      st.sessions[id].activeRunId.value in st.runs && st.runs[st.sessions[id].activeRunId.value] == id
  }

  ghost predicate NoEmptyRun(st: Store) {
    forall id :: id in st.sessions ==> st.sessions[id].activeRunId != Some("")
  }

  /** What every reachable store satisfies. */
  ghost predicate StoreInv(st: Store, limits: Limits) {
    limits.maxSessions >= 1 && Ordered(st) && |st.order| <= limits.maxSessions &&
    RunsHaveControllers(st) && IndexInverse(st) && NoEmptyRun(st)
  }

  lemma CreateInv(st: Store, limits: Limits, id: string, key: string, cwd: string, now: int)
    requires StoreInv(st, limits)
    ensures StoreInv(Create(st, limits, id, key, cwd, now).0, limits)
  {
    hide Create, Ordered;
    CreateLaw(st, limits, id, key, cwd, now);
    var after := Create(st, limits, id, key, cwd, now).0;
    forall r | r in after.runs ensures after.runs[r] in after.sessions &&
      after.sessions[after.runs[r]].activeRunId == Some(r) {
      var holder := st.runs[r];
      assert Busy(st.sessions[holder]);
    }
  }

  lemma TouchInv(st: Store, limits: Limits, id: string, now: int)
    requires StoreInv(st, limits)
    ensures StoreInv(Touch(st, id, now), limits)
  {}

  lemma ClearIndex(st: Store, id: string, now: int)
    requires IndexInverse(st) && NoEmptyRun(st)
    ensures IndexInverse(ClearActive(st, id, now))
  {
    var after := ClearActive(st, id, now);
    if id in st.sessions {
      forall other | other in after.sessions && after.sessions[other].activeRunId.Some?
        ensures after.sessions[other].activeRunId.value in after.runs &&
          after.runs[after.sessions[other].activeRunId.value] == other
      {
        assert other != id;
      }
    }
  }

  lemma InvIgnoresAborted(st: Store, limits: Limits, aborted: set<nat>)
    requires StoreInv(st, limits)
    ensures StoreInv(st.(aborted := aborted), limits)
  {}

  lemma ClearInv(st: Store, limits: Limits, id: string, now: int)
    requires StoreInv(st, limits)
    ensures StoreInv(ClearActive(st, id, now), limits) && StoreInv(CancelActive(st, id, now), limits)
  {
    hide Ordered, IndexInverse, RunsWithout;
    UpdateOrdered(st, id, "", 0, now);
    ClearIndex(st, id, now);
    assert StoreInv(ClearActive(st, id, now), limits);
    hide StoreInv;
    InvIgnoresAborted(ClearActive(st, id, now), limits, CancelActive(st, id, now).aborted);
  }

  /** Starting a run keeps the index exact exactly when the session had no other run and the run id is not another
      session's. */
  lemma SetActiveInverse(st: Store, id: string, run: string, controller: nat, now: int)
    requires IndexInverse(st) && id in st.sessions
    ensures IndexInverse(SetActive(st, id, run, controller, now)) <==>
      st.sessions[id].activeRunId in {None, Some(run)} && (run in st.runs ==> st.runs[run] == id)
  {
    var after := SetActive(st, id, run, controller, now);
    var active := st.sessions[id].activeRunId;
    if active.Some? && active.value != run {
      assert active.value in after.runs && after.runs[active.value] == id;
    } else if run in st.runs && st.runs[run] != id {
      var other := st.runs[run];
      assert after.sessions[other].activeRunId == Some(run);
    }
  }

  lemma SetActiveInv(st: Store, limits: Limits, id: string, run: string, controller: nat, now: int)
    requires StoreInv(st, limits) && run != "" && run !in st.runs
    requires id in st.sessions ==> st.sessions[id].activeRunId.None?
    ensures StoreInv(SetActive(st, id, run, controller, now), limits)
  {
    if id in st.sessions {
      SetActiveInverse(st, id, run, controller, now);
    }
  }
}
