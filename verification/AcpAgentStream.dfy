// src/acp/translator.ts: the message chunks that a session's client receives in a run
// of the agent, whatever other sessions do in between.
module AcpAgentStream {
  import opened JsText
  import opened AcpSessionModel
  import opened AcpAgentModel

  /** The texts of the chunks that were sent to a session. */
  function ChunksOf(log: seq<Effect>, id: string): seq<string> {
    if log == [] then [] else
    (if log[0].MessageChunk? && log[0].sessionId == id then [log[0].text] else []) + ChunksOf(log[1..], id)
  }

  lemma {:induction false} ChunksAppend(a: seq<Effect>, b: seq<Effect>, id: string)
    ensures ChunksOf(a + b, id) == ChunksOf(a, id) + ChunksOf(b, id)
    decreases |a|
  {
    if a == [] {
      assert a + b == b;
    } else {
      assert (a + b)[1..] == a[1..] + b;
      ChunksAppend(a[1..], b, id);
    }
  }

  lemma ChunksSnoc(log: seq<Effect>, e: Effect, id: string)
    ensures ChunksOf(log + [e], id) == ChunksOf(log, id) + if e.MessageChunk? && e.sessionId == id then [e.text] else []
  {
    ChunksAppend(log, [e], id);
    assert [e][1..] == [];
  }

  /** The pending prompt after some snapshots. */
  function AfterAll(p: Pending, snapshots: seq<string>): Pending
    decreases |snapshots|
  {
    if snapshots == [] then p else AfterAll(AfterSnapshot(p, snapshots[0]), snapshots[1..])
  }

  lemma {:induction false} EmittedAppend(p: Pending, a: seq<string>, b: seq<string>)
    ensures Emitted(p, a + b) == Emitted(p, a) + Emitted(AfterAll(p, a), b)
    ensures AfterAll(p, a + b) == AfterAll(AfterAll(p, a), b)
    decreases |a|
  {
    hide NewText, AfterSnapshot;
    if a == [] {
      assert a + b == b;
    } else {
      assert (a + b)[1..] == a[1..] + b;
      EmittedAppend(AfterSnapshot(p, a[0]), a[1..], b);
    }
  }

  /** The snapshot, if any, that a step brings for the pending prompt of a session. */
  ghost function Brought(a: Agent, s: Step, id: string): seq<string>
    requires PendingFiled(a)
  {
    match s
    case SnapshotStep(other, text) => if other == id then [text] else []
    case EventStep(key, run, state, snapshot) =>
      var found := FindPending(a, a.order, key, run);
      if key != "" && found.Some? && found.value.sessionId == id && snapshot.Some? &&
        (state.DeltaState? || state.FinalState?)
      then [snapshot.value] else []
    case _ => []
  }

  /** The step is no prompt of the session, which would register another prompt in place of the pending one. */
  predicate NoPrompt(s: Step, id: string) {
    !(s.PromptStep? && s.id == id)
  }

  /** The session got the chunks of the snapshots, and its prompt, if it is still pending, has recorded them. */
  ghost predicate Streamed(a: Agent, r: Agent, id: string, snapshots: seq<string>)
    requires id in a.pending
  {
    ChunksOf(r.log, id) == ChunksOf(a.log, id) + Emitted(a.pending[id], snapshots) &&
    (id in r.pending ==> r.pending[id] == AfterAll(a.pending[id], snapshots))
  }

  // ----------------------------------------------------------------------- one step

  lemma NothingStreamed(a: Agent, r: Agent, id: string)
    requires id in a.pending && ChunksOf(r.log, id) == ChunksOf(a.log, id)
    requires id in r.pending ==> r.pending[id] == a.pending[id]
    ensures Streamed(a, r, id, [])
  {
    assert ChunksOf(a.log, id) + [] == ChunksOf(a.log, id);
  }

  lemma DeltaStreams(a: Agent, sessionId: string, fullText: string, id: string)
    requires id in a.pending
    ensures var r := Delta(a, sessionId, fullText);
      Streamed(a, r, id, if sessionId == id then [fullText] else []) && r.order == a.order &&
        r.pending.Keys == a.pending.Keys
  {
    hide NewText, AfterSnapshot;
    var r := Delta(a, sessionId, fullText);
    if sessionId in a.pending {
      var p := a.pending[sessionId];
      var chunk := NewText(p, fullText);
      assert [fullText][1..] == [];
      NoSnapshot(AfterSnapshot(p, fullText));
      if chunk.Some? {
        ChunksSnoc(a.log, MessageChunk(sessionId, chunk.value), id);
        assert [chunk.value] + [] == [chunk.value];
      } else {
        QuietSnapshot(p, fullText);
        assert ChunksOf(a.log, id) + [] == ChunksOf(a.log, id);
      }
    }
    if sessionId != id {
      assert ChunksOf(a.log, id) + [] == ChunksOf(a.log, id);
    }
  }

  lemma NoSnapshot(p: Pending)
    ensures Emitted(p, []) == [] && AfterAll(p, []) == p
  {}

  lemma QuietSnapshot(p: Pending, fullText: string)
    ensures NewText(p, fullText).None? ==> AfterSnapshot(p, fullText) == p
  {}

  lemma {:induction false} RejectionsSilent(pending: map<string, Pending>, ids: seq<string>, id: string)
    requires forall x :: x in ids ==> x in pending
    ensures ChunksOf(Rejections(pending, ids), id) == []
    decreases |ids|
  {
    if ids == [] {
    } else {
      RejectionsSilent(pending, ids[1..], id);
      assert Rejections(pending, ids)[1..] == Rejections(pending, ids[1..]);
    }
  }

  /** The end of a prompt sends nothing. */
  lemma EndStreams(a: Agent, shown: Agent, r: Agent, sessionId: string, e: Effect, id: string, snapshots: seq<string>)
    requires id in a.pending && Streamed(a, shown, id, snapshots) && !e.MessageChunk?
    requires r.pending == shown.pending - {sessionId} && r.log == shown.log + [e]
    ensures Streamed(a, r, id, snapshots)
  {
    ChunksSnoc(shown.log, e, id);
    assert ChunksOf(shown.log, id) + [] == ChunksOf(shown.log, id);
  }

  lemma EventStreams(a: Agent, key: string, run: Option<string>, state: ChatState, snapshot: Option<string>, now: int,
      id: string)
    requires PendingFiled(a) && id in a.pending
    ensures Streamed(a, ChatEvent(a, key, run, state, snapshot, now), id,
      Brought(a, EventStep(key, run, state, snapshot), id))
  {
    hide Delta, ClearActive, Without, PendingFiled, Emitted, AfterAll, Streamed, FindPending;
    FiledOrder(a);
    var found := FindPending(a, a.order, key, run);
    NothingStreamed(a, a, id);
    if key != "" && found.Some? {
      var p := found.value;
      var shown := if snapshot.Some? && (state.DeltaState? || state.FinalState?)
        then Delta(a, p.sessionId, snapshot.value) else a;
      if snapshot.Some? {
        DeltaStreams(a, p.sessionId, snapshot.value, id);
      }
      var snapshots := Brought(a, EventStep(key, run, state, snapshot), id);
      assert Streamed(a, shown, id, snapshots);
      if !(state.DeltaState? || state.OtherState?) {
        var e := Resolved(p.idempotencyKey, ReasonOf(state));
        EndStreams(a, shown, ChatEvent(a, key, run, state, snapshot, now), p.sessionId, e, id, snapshots);
      }
    }
  }

  lemma FiledOrder(a: Agent)
    requires PendingFiled(a)
    ensures forall id :: id in a.order <==> id in a.pending
  {}

  lemma PromptStreams(a: Agent, other: string, runId: string, controller: nat, fits: bool, now: int, id: string)
    requires id in a.pending && other != id
    ensures Streamed(a, Prompt(a, other, runId, controller, fits, now).0, id, [])
  {
    hide CancelActive, SetActive, Touch, Emitted, AfterAll, Streamed;
    var r := Prompt(a, other, runId, controller, fits, now).0;
    if r.log != a.log {
      ChunksSnoc(a.log, r.log[|a.log|], id);
      assert ChunksOf(a.log, id) + [] == ChunksOf(a.log, id);
    }
    NothingStreamed(a, r, id);
  }

  lemma CancelStreams(a: Agent, other: string, now: int, id: string)
    requires id in a.pending
    ensures Streamed(a, CancelBegin(a, other, now).0, id, [])
  {
    hide CancelActive, Touch, Emitted, AfterAll, Streamed;
    var r := CancelBegin(a, other, now).0;
    if r.log != a.log {
      ChunksSnoc(a.log, r.log[|a.log|], id);
      assert ChunksOf(a.log, id) + [] == ChunksOf(a.log, id);
    }
    NothingStreamed(a, r, id);
  }

  lemma DisconnectStreams(a: Agent, now: int, id: string)
    requires PendingFiled(a) && id in a.pending
    ensures Streamed(a, Disconnect(a, now), id, [])
  {
    hide ClearAll, Emitted, AfterAll, Streamed;
    ChunksAppend(a.log, Rejections(a.pending, a.order), id);
    RejectionsSilent(a.pending, a.order, id);
    assert ChunksOf(a.log, id) + [] == ChunksOf(a.log, id);
    NothingStreamed(a, Disconnect(a, now), id);
  }

  /** What any step but a prompt of the session sends to its client: the chunk of the snapshot it brings for it. */
  lemma StepStreams(a: Agent, limits: Limits, s: Step, now: int, id: string)
    requires Ordered(a.store) && PendingFiled(a) && id in a.pending && NoPrompt(s, id)
    ensures Streamed(a, Apply(a, limits, s, now), id, Brought(a, s, id))
  {
    hide Ordered, PendingFiled, Create, Prompt, CancelBegin, Delta, ChatEvent, Disconnect, ClearActive, Without,
      Streamed;
    NothingStreamed(a, a, id);
    var r := Apply(a, limits, s, now);
    match s
    case CreateStep(_, _, _) => NothingStreamed(a, r, id);
    case TouchStep(_) => NothingStreamed(a, r, id);
    case PromptStep(other, runId, controller, fits) => PromptStreams(a, other, runId, controller, fits, now, id);
    case RequestFailedStep(other, runId) => EndStreams(a, a, r, other, Rejected(runId), id, []);
    case CancelBeginStep(other) => CancelStreams(a, other, now, id);
    case CancelEndStep(other, runId) => EndStreams(a, a, r, other, Resolved(runId, Cancelled), id, []);
    case SnapshotStep(other, text) => DeltaStreams(a, other, text, id);
    case FinishStep(other, runId, reason) => EndStreams(a, a, r, other, Resolved(runId, reason), id, []);
    case EventStep(key, run, state, snapshot) => EventStreams(a, key, run, state, snapshot, now, id);
    case DisconnectStep => DisconnectStreams(a, now, id);
  }

  // ---------------------------------------------------------------------- whole runs

  /** From state `i` to state `j` the session's prompt is pending before every step, and no step is a prompt of it. */
  ghost predicate PendingThrough(states: seq<Agent>, steps: seq<Step>, i: nat, j: nat, id: string)
    requires i <= j < |states| && |states| == |steps| + 1
  {
    forall k :: i <= k < j ==> PendingFiled(states[k]) && id in states[k].pending && NoPrompt(steps[k], id)
  }

  /** The snapshots that the steps from `i` to `j` bring for the session. */
  ghost function BroughtBy(states: seq<Agent>, steps: seq<Step>, i: nat, j: nat, id: string): seq<string>
    requires i <= j < |states| && |states| == |steps| + 1 && PendingThrough(states, steps, i, j, id)
    decreases j
  {
    if i == j then [] else BroughtBy(states, steps, i, j - 1, id) + Brought(states[j - 1], steps[j - 1], id)
  }

  /** In every run the chunks that a session's client gets for a prompt are those of the snapshots that were brought for
      it, whatever other sessions do in between. */
  lemma {:induction false} RunStreams(limits: Limits, states: seq<Agent>, steps: seq<Step>, times: seq<int>, i: nat,
      j: nat,
      id: string)
    requires limits.maxSessions >= 1 && Run(limits, states, steps, times) && i <= j < |states|
    requires id in states[i].pending && PendingThrough(states, steps, i, j, id)
    ensures Streamed(states[i], states[j], id, BroughtBy(states, steps, i, j, id))
    decreases j
  {
    hide AgentInv, Apply, Allowed, Emitted, AfterAll, Brought, NoPrompt, PendingFiled;
    if i == j {
      NoSnapshot(states[i].pending[id]);
      assert ChunksOf(states[i].log, id) + [] == ChunksOf(states[i].log, id);
    } else {
      RunStreams(limits, states, steps, times, i, j - 1, id);
      RunKeeps(limits, states, steps, times, j - 1);
      AgentParts(states[j - 1], limits);
      InvParts(states[j - 1].store, limits);
      StepStreams(states[j - 1], limits, steps[j - 1], times[j - 1], id);
      EmittedAppend(states[i].pending[id], BroughtBy(states, steps, i, j - 1, id),
        Brought(states[j - 1], steps[j - 1], id));
    }
  }

  /** So from then on the client receives as much text as the longest snapshot has more than was sent before, and
      exactly that part of it when all snapshots are prefixes of one text. */
  lemma RunSendsLongest(limits: Limits, states: seq<Agent>, steps: seq<Step>, times: seq<int>, i: nat, j: nat,
      id: string,
      text: string)
    requires limits.maxSessions >= 1 && Run(limits, states, steps, times) && i <= j < |states|
    requires id in states[i].pending && PendingThrough(states, steps, i, j, id)
    ensures var snapshots := BroughtBy(states, steps, i, j, id);
      var before, after := ChunksOf(states[i].log, id), ChunksOf(states[j].log, id);
      var sent := states[i].pending[id].sentTextLength;
      var end := Max(sent, Longest(snapshots));
      before <= after && |Concat(after[|before|..])| == end - sent &&
      (sent <= |text| && (forall s :: s in snapshots ==> s <= text) ==>
        end <= |text| && Concat(after[|before|..]) == text[sent..end])
  {
    hide PendingThrough, BroughtBy, Emitted, Longest, Apply, Allowed;
    RunStreams(limits, states, steps, times, i, j, id);
    var p, snapshots := states[i].pending[id], BroughtBy(states, steps, i, j, id);
    var before, after := ChunksOf(states[i].log, id), ChunksOf(states[j].log, id);
    assert after[|before|..] == Emitted(p, snapshots);
    EmittedLength(p, snapshots);
    if p.sentTextLength <= |text| && forall s :: s in snapshots ==> s <= text {
      EmittedPrefixes(p, snapshots, text);
    }
  }
}
