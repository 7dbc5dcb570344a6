// assets/chrome-extension/background.js: which browser tabs are attached, under
// which relay session, across tab events and service-worker restarts.
module TabRelayModel {
  import opened JsText

  datatype TabId = TabId(number: int)

  datatype Tab = Connecting | Connected(sessionId: string, targetId: string, attachOrder: nat)

  /** What survives a restart of the service worker. */
  datatype Stored = Stored(tabs: map<TabId, Tab>, nextSession: nat)

  datatype State = State(tabs: map<TabId, Tab>, tabBySession: map<string, TabId>, nextSession: nat,
    stored: Option<Stored>)

  const INITIAL := State(map[], map[], 1, None)

  function SessionName(n: nat): string {
    "cb-tab-" + Decimal(n)
  }

  lemma SessionNameInjective(m: nat, n: nat)
    requires SessionName(m) == SessionName(n)
    ensures m == n
  {
    assert SessionName(m)[7..] == Decimal(m) && SessionName(n)[7..] == Decimal(n);
    DecimalInjective(m, n);
  }

  // ----------------------------------------------------------------------- events

  function Forget(tabBySession: map<string, TabId>, tab: Option<Tab>): map<string, TabId> {
    if tab.Some? && tab.value.Connected? then tabBySession - {tab.value.sessionId} else tabBySession
  }

  function TabAt(s: State, tabId: TabId): Option<Tab> {
    if tabId in s.tabs then Some(s.tabs[tabId]) else None
  }

  /** The tab answered with its target id: it gets the next session. */
  function Attach(s: State, tabId: TabId, targetId: string): State {
    s.(tabs := s.tabs[tabId := Connected(SessionName(s.nextSession), targetId, s.nextSession)],
       tabBySession := s.tabBySession[SessionName(s.nextSession) := tabId], nextSession := s.nextSession + 1)
  }

  /** Detaching, losing the debugger to a navigation, and closing all take the tab and its session out. */
  function Detach(s: State, tabId: TabId): State {
    s.(tabs := s.tabs - {tabId}, tabBySession := Forget(s.tabBySession, TabAt(s, tabId)))
  }

  function BeginConnect(s: State, tabId: TabId): State {
    s.(tabs := s.tabs[tabId := Connecting])
  }

  /** A failed connect takes the tab out but not a session that `Attach` may already have given it. */
  function ConnectFailed(s: State, tabId: TabId): State {
    s.(tabs := s.tabs - {tabId})
  }

  function Replace(s: State, added: TabId, removed: TabId): State {
    if removed !in s.tabs then s else
    var tab := s.tabs[removed];
    s.(tabs := (s.tabs - {removed})[added := tab],
       tabBySession := if tab.Connected? then s.tabBySession[tab.sessionId := added] else s.tabBySession)
  }

  /** Re-announcing found the tab gone; `sessionId` is the session the tab had when its validation began. */
  function DropInvalid(s: State, tabId: TabId, sessionId: string): State {
    s.(tabs := s.tabs - {tabId}, tabBySession := s.tabBySession - {sessionId})
  }

  predicate Announceable(tab: Tab) {
    tab.Connected? && tab.sessionId != "" && tab.targetId != ""
  }

  function ConnectedTabs(tabs: map<TabId, Tab>): map<TabId, Tab> {
    map t | t in tabs && Announceable(tabs[t]) :: tabs[t]
  }

  function Persist(s: State): State {
    s.(stored := Some(Stored(ConnectedTabs(s.tabs), s.nextSession)))
  }

  /** `rev` leads from exactly the sessions of the connected tabs back to those tabs. */
  ghost predicate Reverse(tabs: map<TabId, Tab>, rev: map<string, TabId>) {
    (forall t :: t in tabs && tabs[t].Connected? ==> tabs[t].sessionId in rev && rev[tabs[t].sessionId] == t) &&
    forall x :: x in rev ==> rev[x] in tabs && tabs[rev[x]].Connected? && tabs[rev[x]].sessionId == x
  }

  /** `r` is a restarted worker: everything stored came back, except the tabs that no longer answer. */
  ghost predicate Restarts(s: State, alive: set<TabId>, r: State) {
    if s.stored.None? then r == INITIAL else
    r.tabs == (map t | t in s.stored.value.tabs && t in alive :: s.stored.value.tabs[t]) &&
      Reverse(r.tabs, r.tabBySession) &&
    r.nextSession == Max(1, s.stored.value.nextSession) && r.stored == s.stored
  }

  // ------------------------------------------------------------------- invariants

  /** Each connected tab holds a numbered session below `next`, and no two hold the same. */
  ghost predicate Numbered(tabs: map<TabId, Tab>, next: nat) {
    (forall t :: t in tabs && tabs[t].Connected? ==>
      1 <= tabs[t].attachOrder < next && tabs[t].sessionId == SessionName(tabs[t].attachOrder)) &&
    forall t, u :: t in tabs && u in tabs && tabs[t].Connected? && tabs[u].Connected? ==>
      (tabs[t].attachOrder == tabs[u].attachOrder ==> t == u)
  }

  /** Each connected tab's session leads back to the tab. */
  ghost predicate Resolves(s: State) {
    forall t :: t in s.tabs && s.tabs[t].Connected? ==>
      s.tabs[t].sessionId in s.tabBySession && s.tabBySession[s.tabs[t].sessionId] == t
  }

  /** Every session ever filed, even one left behind by a failed attach, has a number below `next`. */
  ghost predicate OldSessions(tabBySession: map<string, TabId>, next: nat) {
    forall x :: x in tabBySession ==> exists n :: 1 <= n < next && x == SessionName(n)
  }

  ghost predicate StoredInv(st: Option<Stored>) {
    st.Some? ==> Numbered(st.value.tabs, st.value.nextSession) && forall t :: t in st.value.tabs ==>
      st.value.tabs[t].Connected?
  }

  ghost predicate TabInv(s: State) {
    s.nextSession >= 1 && Numbered(s.tabs, s.nextSession) && Resolves(s) &&
      OldSessions(s.tabBySession, s.nextSession) && StoredInv(s.stored)
  }

  /** Attaching files the tab and its session under each other and counts one session; nothing else changes. */
  lemma AttachExactly(s: State, tabId: TabId, targetId: string)
    ensures var r, name := Attach(s, tabId, targetId), "cb-tab-" + Decimal(s.nextSession);
      r.tabs == s.tabs[tabId := Connected(name, targetId, s.nextSession)] &&
      r.tabBySession == s.tabBySession[name := tabId] && r.nextSession == s.nextSession + 1 && r.stored == s.stored
  {}

  /** Detaching takes out the tab and, if it was connected, the way back from its session; a failed connect only the
      tab; neither touches any other. */
  lemma DetachExactly(s: State, tabId: TabId)
    ensures var r := Detach(s, tabId);
      r.tabs.Keys == s.tabs.Keys - {tabId} && (forall t :: t in r.tabs ==> r.tabs[t] == s.tabs[t]) &&
      (forall x :: x in r.tabBySession <==>
        x in s.tabBySession && !(tabId in s.tabs && s.tabs[tabId].Connected? && s.tabs[tabId].sessionId == x)) &&
      (forall x :: x in r.tabBySession ==> r.tabBySession[x] == s.tabBySession[x]) &&
      ConnectFailed(s, tabId) == s.(tabs := r.tabs) && r.nextSession == s.nextSession && r.stored == s.stored
  {}

  /** A tab that begins to connect is filed as connecting. */
  lemma BeginExactly(s: State, tabId: TabId)
    ensures var r := BeginConnect(s, tabId);
      tabId in r.tabs && r.tabs[tabId] == Connecting && r.tabBySession == s.tabBySession &&
      r.nextSession == s.nextSession && r.stored == s.stored &&
      forall t :: t != tabId ==> (t in r.tabs <==> t in s.tabs) && (t in s.tabs ==> r.tabs[t] == s.tabs[t])
  {}

  /** A replaced tab goes on under its new id, and its session leads there; an unknown one changes nothing. */
  lemma ReplaceExactly(s: State, added: TabId, removed: TabId)
    ensures var r := Replace(s, added, removed);
      if removed !in s.tabs then r == s
      else
        added in r.tabs && r.tabs[added] == s.tabs[removed] && (removed in r.tabs <==> removed == added) &&
        (forall t :: t != added && t != removed ==>
          (t in r.tabs <==> t in s.tabs) && (t in s.tabs ==> r.tabs[t] == s.tabs[t])) &&
        r.nextSession == s.nextSession && r.stored == s.stored &&
        r.tabBySession == match s.tabs[removed]
          case Connected(session, _, _) => s.tabBySession[session := added]
          case Connecting => s.tabBySession
  {}

  /** What is stored: the counter, and exactly the connected tabs whose session and target are known. */
  lemma PersistExactly(s: State)
    ensures var r := Persist(s);
      r.stored.Some? && r.stored.value.nextSession == s.nextSession && r == s.(stored := r.stored) &&
      forall t :: t in r.stored.value.tabs <==>
        t in s.tabs && s.tabs[t].Connected? && s.tabs[t].sessionId != "" && s.tabs[t].targetId != ""
    ensures forall t :: t in Persist(s).stored.value.tabs ==> Persist(s).stored.value.tabs[t] == s.tabs[t]
  {}

  lemma SessionsApart(s: State, t: TabId, u: TabId)
    requires Numbered(s.tabs, s.nextSession) && t in s.tabs && u in s.tabs && s.tabs[t].Connected? &&
      s.tabs[u].Connected?
    requires s.tabs[t].sessionId == s.tabs[u].sessionId
    ensures t == u
  {
    SessionNameInjective(s.tabs[t].attachOrder, s.tabs[u].attachOrder);
  }

  /** Attaching gives the tab a session that the reverse map does not hold. */
  lemma AttachKeeps(s: State, tabId: TabId, targetId: string)
    requires TabInv(s)
    ensures TabInv(Attach(s, tabId, targetId)) && SessionName(s.nextSession) !in s.tabBySession
  {
    hide SessionName;
    var name := SessionName(s.nextSession);
    if name in s.tabBySession {
      var n :| 1 <= n < s.nextSession && name == SessionName(n);
      SessionNameInjective(n, s.nextSession);
    }
    var after := Attach(s, tabId, targetId);
    forall x | x in after.tabBySession ensures exists n :: 1 <= n < after.nextSession && x == SessionName(n) {
      if x == name {
        assert 1 <= s.nextSession < after.nextSession;
      } else {
        var n :| 1 <= n < s.nextSession && x == SessionName(n);
      }
    }
    assert Resolves(after);
  }

  lemma ForgetKeeps(s: State, tabId: TabId)
    requires TabInv(s)
    ensures TabInv(Detach(s, tabId)) && TabInv(ConnectFailed(s, tabId))
  {
    hide SessionName;
    var after := Detach(s, tabId);
    forall t | t in after.tabs && after.tabs[t].Connected?
      ensures after.tabs[t].sessionId in after.tabBySession && after.tabBySession[after.tabs[t].sessionId] == t
    {
      if tabId in s.tabs && s.tabs[tabId].Connected? && s.tabs[tabId].sessionId == s.tabs[t].sessionId {
        SessionsApart(s, tabId, t);
      }
    }
  }

  lemma BeginKeeps(s: State, tabId: TabId)
    requires TabInv(s)
    ensures TabInv(BeginConnect(s, tabId))
  {
    hide SessionName, OldSessions, StoredInv;
  }

  lemma PersistKeeps(s: State)
    requires TabInv(s)
    ensures TabInv(Persist(s))
  {
    hide SessionName, OldSessions, Resolves;
    assert Resolves(s) ==> Resolves(Persist(s)) by { SameMaps(s, Persist(s)); }
  }

  lemma SameMaps(s: State, r: State)
    requires s.tabs == r.tabs && s.tabBySession == r.tabBySession
    ensures Resolves(s) <==> Resolves(r)
  {}

  lemma ReplaceKeeps(s: State, added: TabId, removed: TabId)
    requires TabInv(s)
    ensures TabInv(Replace(s, added, removed))
  {
    hide SessionName;
    if removed in s.tabs {
      var after := Replace(s, added, removed);
      var tab := s.tabs[removed];
      forall t | t in after.tabs && after.tabs[t].Connected?
        ensures after.tabs[t].sessionId in after.tabBySession && after.tabBySession[after.tabs[t].sessionId] == t
      {
        if t != added && tab.Connected? && s.tabs[t].sessionId == tab.sessionId {
          SessionsApart(s, t, removed);
        }
      }
    }
  }

  /** Dropping a tab that failed its validation keeps the maps consistent exactly when no other tab has meanwhile taken
      over the session it had, as a tab replacement during the validation makes happen. */
  lemma DropKeepsExactly(s: State, tabId: TabId, sessionId: string)
    requires TabInv(s)
    ensures TabInv(DropInvalid(s, tabId, sessionId)) <==>
      forall t :: t in s.tabs && t != tabId && s.tabs[t].Connected? ==> s.tabs[t].sessionId != sessionId
  {
    hide SessionName;
    var after := DropInvalid(s, tabId, sessionId);
    if t :| t in s.tabs && t != tabId && s.tabs[t].Connected? && s.tabs[t].sessionId == sessionId {
      assert t in after.tabs;
      assert !Resolves(after);
    }
  }

  lemma RestartKeeps(s: State, alive: set<TabId>, r: State)
    requires TabInv(s) && Restarts(s, alive, r)
    ensures TabInv(r) && SessionName(r.nextSession) !in r.tabBySession
  {
    hide SessionName;
    if s.stored.Some? {
      forall x | x in r.tabBySession ensures exists n :: 1 <= n < r.nextSession && x == SessionName(n) {
        var t := r.tabBySession[x];
        assert t in s.stored.value.tabs && r.tabs[t] == s.stored.value.tabs[t];
        assert x == SessionName(r.tabs[t].attachOrder);
      }
    }
    AttachKeeps(r, TabId(0), "");
  }

  // --------------------------------------------------------------------- whole runs

  datatype Event =
    | Attached(tabId: TabId, targetId: string)
    | Detached(tabId: TabId)
    | ConnectBegun(tabId: TabId)
    | ConnectRefused(tabId: TabId)
    | Replaced(added: TabId, removed: TabId)
    | Dropped(tabId: TabId, sessionId: string)
    | Persisted
    | Restarted(alive: set<TabId>)

  /** A validation that is dropped on must still be about the tab it began with. */
  ghost predicate Allowed(s: State, e: Event) {
    e.Dropped? ==> forall t :: t in s.tabs && t != e.tabId && s.tabs[t].Connected? ==>
      s.tabs[t].sessionId != e.sessionId
  }

  ghost predicate Next(s: State, e: Event, r: State) {
    match e
    case Attached(tabId, targetId) => r == Attach(s, tabId, targetId)
    case Detached(tabId) => r == Detach(s, tabId)
    case ConnectBegun(tabId) => r == BeginConnect(s, tabId)
    case ConnectRefused(tabId) => r == ConnectFailed(s, tabId)
    case Replaced(added, removed) => r == Replace(s, added, removed)
    case Dropped(tabId, sessionId) => r == DropInvalid(s, tabId, sessionId)
    case Persisted => r == Persist(s)
    case Restarted(alive) => Restarts(s, alive, r)
  }

  lemma EventKeeps(s: State, e: Event, r: State)
    requires TabInv(s) && Allowed(s, e) && Next(s, e, r)
    ensures TabInv(r)
  {
    hide TabInv;
    match e
    case Attached(tabId, targetId) => AttachKeeps(s, tabId, targetId);
    case Detached(tabId) => ForgetKeeps(s, tabId);
    case ConnectBegun(tabId) => BeginKeeps(s, tabId);
    case ConnectRefused(tabId) => ForgetKeeps(s, tabId);
    case Replaced(added, removed) => ReplaceKeeps(s, added, removed);
    case Dropped(tabId, sessionId) => DropKeepsExactly(s, tabId, sessionId);
    case Persisted => PersistKeeps(s);
    case Restarted(alive) => RestartKeeps(s, alive, r);
  }

  ghost predicate Run(states: seq<State>, events: seq<Event>) {
    |states| == |events| + 1 && states[0] == INITIAL &&
    forall k :: 0 <= k < |events| ==> Allowed(states[k], events[k]) && Next(states[k], events[k], states[k + 1])
  }

  /** After every event of every run, restarts included, each connected tab's session leads back to it and connected
      tabs hold pairwise different session numbers below the next one. */
  lemma {:induction false} RunKeeps(states: seq<State>, events: seq<Event>, k: nat)
    requires Run(states, events) && k < |states|
    ensures TabInv(states[k])
    decreases k
  {
    hide TabInv, Next, Allowed;
    if k == 0 {
      InitialInv();
    } else {
      RunKeeps(states, events, k - 1);
      EventKeeps(states[k - 1], events[k - 1], states[k]);
    }
  }

  // ------------------------------------------------------------ sessions given out twice

  /** The counter that a restarted worker begins with. */
  function StoredNext(s: State): nat {
    if s.stored.None? then 1 else Max(1, s.stored.value.nextSession)
  }

  /** What was just stored is up to date. */
  lemma PersistIsUpToDate(s: State)
    requires s.nextSession >= 1
    ensures StoredNext(Persist(s)) == s.nextSession
  {}

  lemma CounterStep(s: State, e: Event, r: State)
    requires Next(s, e, r)
    ensures if e.Restarted? then r.nextSession == StoredNext(s) else s.nextSession <= r.nextSession
  {}

  /** Every restart between the two states finds a stored counter that has reached `n`. */
  ghost predicate RestartsKeep(states: seq<State>, events: seq<Event>, i: nat, j: nat, n: nat)
    requires i <= j < |states| && |states| == |events| + 1
  {
    forall k :: i <= k < j && events[k].Restarted? ==> n <= StoredNext(states[k])
  }

  lemma {:induction false} CounterReaches(states: seq<State>, events: seq<Event>, i: nat, j: nat)
    requires Run(states, events) && i <= j < |states| && RestartsKeep(states, events, i, j, states[i].nextSession)
    ensures states[i].nextSession <= states[j].nextSession
    decreases j
  {
    hide Next, Allowed, StoredNext;
    if i == j {
    } else {
      CounterReaches(states, events, i, j - 1);
      CounterStep(states[j - 1], events[j - 1], states[j]);
    }
  }

  /** The counter never falls below where it stood exactly when no restart on the way finds an older one stored. */
  lemma CounterKeptExactly(states: seq<State>, events: seq<Event>, i: nat, j: nat)
    requires Run(states, events) && i <= j < |states|
    ensures (forall k :: i <= k <= j ==> states[i].nextSession <= states[k].nextSession) <==>
      RestartsKeep(states, events, i, j, states[i].nextSession)
  {
    hide Next, Allowed, StoredNext;
    if RestartsKeep(states, events, i, j, states[i].nextSession) {
      forall k | i <= k <= j ensures states[i].nextSession <= states[k].nextSession {
        CounterReaches(states, events, i, k);
      }
    }
    if forall k :: i <= k <= j ==> states[i].nextSession <= states[k].nextSession {
      forall k | i <= k < j && events[k].Restarted? ensures states[i].nextSession <= StoredNext(states[k]) {
        CounterStep(states[k], events[k], states[k + 1]);
        assert states[i].nextSession <= states[k + 1].nextSession;
      }
    }
  }

  /** Every restart of the run finds the counter as the worker left it. */
  ghost predicate StoresUpToDate(states: seq<State>, events: seq<Event>)
    requires |states| == |events| + 1
  {
    forall k :: 0 <= k < |events| && events[k].Restarted? ==> states[k].nextSession <= StoredNext(states[k])
  }

  /** The counter never falls in a whole run exactly when every restart finds it up to date. */
  lemma CounterNeverFallsExactly(states: seq<State>, events: seq<Event>)
    requires Run(states, events)
    ensures (forall i, j :: 0 <= i <= j < |states| ==> states[i].nextSession <= states[j].nextSession) <==>
      StoresUpToDate(states, events)
  {
    hide Next, Allowed, StoredNext;
    if StoresUpToDate(states, events) {
      forall i, j | 0 <= i <= j < |states| ensures states[i].nextSession <= states[j].nextSession {
        CounterRises(states, events, i, j);
      }
    }
    if forall i, j :: 0 <= i <= j < |states| ==> states[i].nextSession <= states[j].nextSession {
      forall k | 0 <= k < |events| && events[k].Restarted? ensures states[k].nextSession <= StoredNext(states[k]) {
        CounterStep(states[k], events[k], states[k + 1]);
        assert states[k].nextSession <= states[k + 1].nextSession;
      }
    }
  }

  lemma {:induction false} CounterRises(states: seq<State>, events: seq<Event>, i: nat, j: nat)
    requires Run(states, events) && i <= j < |states| && StoresUpToDate(states, events)
    ensures states[i].nextSession <= states[j].nextSession
    decreases j
  {
    hide Next, Allowed, StoredNext;
    if i == j {
    } else {
      CounterRises(states, events, i, j - 1);
      CounterStep(states[j - 1], events[j - 1], states[j]);
    }
  }

  /** As long as no restart finds an older counter stored, the next session is one that no tab had. */
  lemma SessionsNeverReused(states: seq<State>, events: seq<Event>, i: nat, j: nat, t: TabId)
    requires Run(states, events) && i <= j < |states| && RestartsKeep(states, events, i, j, states[i].nextSession)
    requires t in states[i].tabs && states[i].tabs[t].Connected?
    ensures states[i].tabs[t].sessionId != SessionName(states[j].nextSession)
  {
    hide SessionName, Next, Allowed, StoredNext;
    RunKeeps(states, events, i);
    CounterReaches(states, events, i, j);
    if SessionName(states[i].tabs[t].attachOrder) == SessionName(states[j].nextSession) {
      SessionNameInjective(states[i].tabs[t].attachOrder, states[j].nextSession);
    }
  }

  /** A worker that is restarted before it stored anything gives the same session out again. */
  lemma SessionReusedAfterRestart(t: TabId, u: TabId, targetId: string)
    ensures var s := Attach(INITIAL, t, targetId);
      Restarts(s, {}, INITIAL) && Attach(INITIAL, u, targetId).tabs[u].sessionId == s.tabs[t].sessionId
  {
    hide SessionName;
  }

  /** So does one that stored its state, attached another tab, and is restarted before it stores that. */
  lemma SessionReusedAfterStaleStore(t: TabId, u: TabId, targetId: string)
    requires t != u
    ensures var first := Persist(Attach(INITIAL, t, targetId));
      var second := Attach(first, u, targetId);
      var restarted := first.(stored := second.stored);
      StoredNext(second) < second.nextSession && (targetId != "" ==> Restarts(second, {t}, restarted)) &&
      Attach(restarted, u, targetId).tabs[u].sessionId == second.tabs[u].sessionId
  {
    hide SessionName;
    assert SessionName(1) != "" by { SessionNamed(); }
    var first := Persist(Attach(INITIAL, t, targetId));
    if targetId != "" {
      assert first.stored.value.tabs == first.tabs;
      assert first.tabs == map x | x in first.stored.value.tabs && x in {t} :: first.stored.value.tabs[x];
    }
  }

  lemma SessionNamed()
    ensures SessionName(1) != ""
  {}

  lemma InitialInv()
    ensures TabInv(INITIAL)
  {}

  /** The race the condition rules out: a tab replaced while its old id is being validated loses its reverse entry. */
  lemma ReplacedDuringValidation(targetId: string)
    ensures var s := Attach(INITIAL, TabId(1), targetId);
      var raced := DropInvalid(Replace(s, TabId(2), TabId(1)), TabId(1), SessionName(1));
      raced.tabs == map[TabId(2) := Connected(SessionName(1), targetId, 1)] && raced.tabBySession == map[] &&
        !Resolves(raced)
  {
    hide SessionName;
    var s := Attach(INITIAL, TabId(1), targetId);
    assert SessionName(1) in s.tabBySession;
    var raced := DropInvalid(Replace(s, TabId(2), TabId(1)), TabId(1), SessionName(1));
    assert TabId(2) in raced.tabs;
  }

  // ------------------------------------------------------------------------ the maps

  class TabRelay {
    var tabs: map<TabId, Tab>
    var tabBySession: map<string, TabId>
    var nextSession: nat
    var stored: Option<Stored>

    function View(): State
      reads this
    {
      State(tabs, tabBySession, nextSession, stored)
    }

    constructor ()
      ensures View() == INITIAL
    {
      tabs, tabBySession, nextSession, stored := map[], map[], 1, None;
    }

    method AttachTab(tabId: TabId, targetId: string) returns (sessionId: string)
      modifies this
      ensures View() == Attach(old(View()), tabId, targetId) && sessionId == SessionName(old(nextSession))
    {
      hide SessionName;
      var sid := nextSession;
      nextSession := nextSession + 1;
      sessionId := SessionName(sid);
      tabs := tabs[tabId := Connected(sessionId, targetId, sid)];
      tabBySession := tabBySession[sessionId := tabId];
    }

    method DetachTab(tabId: TabId)
      modifies this
      ensures View() == Detach(old(View()), tabId)
    {
      if tabId in tabs && tabs[tabId].Connected? {
        tabBySession := tabBySession - {tabs[tabId].sessionId};
      }
      tabs := tabs - {tabId};
    }

    /** The toolbar button: detaches a connected tab, and otherwise connects it.  `engaged` says that another
        operation holds the tab or that a re-attach is pending, `target` is what the tab answers, if it does, and
        `sent` whether the relay could be told. */
    method ConnectOrToggle(tabId: TabId, engaged: bool, target: Option<string>, sent: bool)
      modifies this
      ensures var begun := BeginConnect(old(View()), tabId);
        View() ==
        if engaged then old(View())
        else if tabId in old(tabs) && old(tabs)[tabId].Connected? then Detach(old(View()), tabId)
        else if target.None? then ConnectFailed(begun, tabId)
        else if sent then Attach(begun, tabId, target.value)
        else ConnectFailed(Attach(begun, tabId, target.value), tabId)
    {
      hide SessionName;
      if engaged {
        return;
      }
      if tabId in tabs && tabs[tabId].Connected? {
        DetachTab(tabId);
        return;
      }
      tabs := tabs[tabId := Connecting];
      if target.None? {
        tabs := tabs - {tabId};
        return;
      }
      var sessionId := AttachTab(tabId, target.value);
      if !sent {
        tabs := tabs - {tabId};
      }
    }

    method OnReplaced(addedTabId: TabId, removedTabId: TabId)
      modifies this
      ensures View() == Replace(old(View()), addedTabId, removedTabId)
    {
      if removedTabId !in tabs {
        return;
      }
      var tab := tabs[removedTabId];
      tabs := tabs - {removedTabId};
      tabs := tabs[addedTabId := tab];
      if tab.Connected? {
        tabBySession := tabBySession[tab.sessionId := addedTabId];
      }
    }

    method PersistState()
      modifies this
      ensures View() == Persist(old(View()))
    {
      stored := Some(Stored(ConnectedTabs(tabs), nextSession));
    }

    /** Drops every connected tab that no longer answers, when nothing else happens in between. */
    method ReannounceAttachedTabs(alive: set<TabId>)
      requires TabInv(View())
      modifies this
      ensures TabInv(View()) && nextSession == old(nextSession) && stored == old(stored)
      ensures tabs == map t | t in old(tabs) && (t in alive || !Announceable(old(tabs)[t])) :: old(tabs)[t]
    {
      hide TabInv;
      var entries := tabs.Keys;
      while entries != {}
        invariant TabInv(View()) && entries <= tabs.Keys && nextSession == old(nextSession) && stored == old(stored)
        invariant tabs == map t | t in old(tabs) && (t in entries || t in alive || !Announceable(old(tabs)[t])) ::
          old(tabs)[t]
        decreases entries
      {
        var tabId :| tabId in entries;
        if Announceable(tabs[tabId]) && tabId !in alive {
          ForgetKeeps(View(), tabId);
          tabBySession := tabBySession - {tabs[tabId].sessionId};
          tabs := tabs - {tabId};
        }
        entries := entries - {tabId};
      }
    }

    /** What a new worker does first: restore everything stored, then drop the tabs that do not answer. */
    method RehydrateState(alive: set<TabId>)
      requires StoredInv(stored) && View() == INITIAL.(stored := stored)
      modifies this
      ensures Restarts(old(View()), alive, View())
    {
      if stored.None? {
        return;
      }
      var all, next := stored.value.tabs, stored.value.nextSession;
      nextSession := Max(nextSession, next);
      RestoreAll(all);
      DropSilent(all, alive);
    }

    method DropSilent(all: map<TabId, Tab>, alive: set<TabId>)
      requires tabs == all && Reverse(all, tabBySession) && forall t :: t in all ==> all[t].Connected?
      modifies this`tabs, this`tabBySession
      ensures tabs == (map t | t in all && t in alive :: all[t]) && Reverse(tabs, tabBySession)
    {
      var entries := all.Keys;
      while entries != {}
        invariant entries <= all.Keys && tabs == map t | t in all && (t in entries || t in alive) :: all[t]
        invariant Reverse(tabs, tabBySession)
        decreases entries
      {
        var tabId :| tabId in entries;
        if tabId !in alive {
          tabs := tabs - {tabId};
          tabBySession := tabBySession - {all[tabId].sessionId};
        }
        entries := entries - {tabId};
      }
    }

    method RestoreAll(all: map<TabId, Tab>)
      requires stored.Some? && all == stored.value.tabs && StoredInv(stored) && tabs == map[] && tabBySession == map[]
      modifies this`tabs, this`tabBySession
      ensures tabs == all && Reverse(tabs, tabBySession)
    {
      hide SessionName, Numbered;
      var entries := all.Keys;
      while entries != {}
        invariant entries <= all.Keys && tabs == (map t | t in all && t !in entries :: all[t]) &&
          Reverse(tabs, tabBySession)
        decreases entries
      {
        var tabId :| tabId in entries;
        if all[tabId].sessionId in tabBySession {
          StoredApart(stored, tabBySession[all[tabId].sessionId], tabId);
        }
        tabs := tabs[tabId := all[tabId]];
        tabBySession := tabBySession[all[tabId].sessionId := tabId];
        entries := entries - {tabId};
      }
      assert tabs == all;
    }
  }

  lemma StoredApart(stored: Option<Stored>, t: TabId, u: TabId)
    requires stored.Some? && StoredInv(stored) && t in stored.value.tabs && u in stored.value.tabs
    requires stored.value.tabs[t].sessionId == stored.value.tabs[u].sessionId
    ensures t == u
  {
    SessionsApart(State(stored.value.tabs, map[], stored.value.nextSession, None), t, u);
  }
}
