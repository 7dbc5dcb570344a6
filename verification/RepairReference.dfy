// What a repair of src/agents/session-transcript-repair.ts makes of a history, said
// message by message without spans and result maps, and when it leaves it alone.
module RepairReference {
  import opened JsText
  import opened TranscriptRepair
  import opened RepairAccounts

  // --------------------------------------------------------- calls, ids and names

  /** A turn expects results for its calls with an id, in order; one that failed expects none. */
  lemma {:induction false} ExpectedCalls(m: Message)
    requires m.Assistant?
    ensures m.failed ==> EffectiveCalls(m) == []
    ensures !m.failed ==> forall c :: c in EffectiveCalls(m) <==> c in m.calls && c.id != ""
    ensures !m.failed && (forall c :: c in m.calls ==> c.id != "") ==> EffectiveCalls(m) == m.calls
  {
    ExtractedExactly(m.calls);
  }

  lemma {:induction false} ExtractedExactly(calls: seq<ToolCall>)
    ensures forall c :: c in ExtractToolCalls(calls) <==> c in calls && c.id != ""
    ensures (forall c :: c in calls ==> c.id != "") ==> ExtractToolCalls(calls) == calls
    decreases |calls|
  {
    if calls == [] {
    } else {
      ExtractedExactly(calls[1..]);
      assert forall c :: c in calls <==> c == calls[0] || c in calls[1..];
      assert calls == [calls[0]] + calls[1..];
    }
  }

  /** The name filed for an id is that of the last call with the id. */
  lemma {:induction false} LastCallNames(calls: seq<ToolCall>, id: string, k: nat)
    requires k < |calls| && calls[k].id == id && forall j :: k < j < |calls| ==> calls[j].id != id
    ensures NameById(calls, id) == calls[k].name
    decreases |calls|
  {
    if k < |calls| - 1 {
      LastCallNames(calls[..|calls| - 1], id, k);
    }
  }

  predicate BlankName(name: Option<string>) {
    name.None? || Trim(name.value) == ""
  }

  /** A named result keeps its own name without the white space around it; a blank name gives way to that of the call,
      and is "unknown" if that is blank too; only a result without any name stays without one. */
  lemma NamedExactly(m: Message, fallback: Option<string>)
    requires m.ToolResult?
    ensures var r := NormalizeToolResultName(m, fallback);
      r.id == m.id && r.body == m.body &&
      (!BlankName(m.toolName) ==> r.toolName == Some(Trim(m.toolName.value))) &&
      (BlankName(m.toolName) && !BlankName(fallback) ==> r.toolName == Some(Trim(fallback.value))) &&
      (BlankName(m.toolName) && BlankName(fallback) ==>
        r.toolName == if m.toolName.Some? then Some("unknown") else None)
  {
    hide Trim;
  }

  // ------------------------------------------------------------- the reference form

  /** The first tool result of the run for the id. */
  function FirstResult(run: seq<Message>, id: string): Option<Message> {
    if run == [] then None
    else if run[0].ToolResult? && run[0].id == Some(id) then Some(run[0])
    else FirstResult(run[1..], id)
  }

  /** What answers a call: the first result for its id in the run, named after the last call with the id; or else a
      result made up for the call. */
  function Answer(c: ToolCall, all: seq<ToolCall>, run: seq<Message>): Message {
    var found := FirstResult(run, c.id);
    if found.Some? && found.value.ToolResult? then NormalizeToolResultName(found.value, NameById(all, c.id))
    else
      ToolResult(Some(c.id), if c.name.Some? then c.name else Some("unknown"), MISSING_RESULT_TEXT)
  }

  /** The answers to the calls, in order, but none for an id that has been answered before. */
  function Answers(calls: seq<ToolCall>, all: seq<ToolCall>, run: seq<Message>, seen: set<string>): seq<Message>
    decreases |calls|
  {
    if calls == [] then []
    else if calls[0].id in seen then Answers(calls[1..], all, run, seen)
    else [Answer(calls[0], all, run)] + Answers(calls[1..], all, run, seen + {calls[0].id})
  }

  /** Tool results are dropped where they stand, and every turn is followed by the answers to its calls. */
  function Reference(ms: seq<Message>, seen: set<string>): seq<Message>
    decreases |ms|
  {
    if ms == [] then []
    else if ms[0].ToolResult? then Reference(ms[1..], seen)
    else if !IsTurn(ms[0]) then [ms[0]] + Reference(ms[1..], seen)
    else
      var calls := EffectiveCalls(ms[0]);
      [ms[0]] + Answers(calls, calls, RunOf(ms[1..]), seen) + Reference(ms[1..], seen + CallIds(calls))
  }

  // ------------------------------------------------------------ one turn and its run

  /** The results a pass over a run files: under each of the turn's ids that is new, the first result for it. */
  ghost predicate FiledFrom(results: map<string, Message>, before: map<string, Message>, run: seq<Message>,
      calls: seq<ToolCall>, ids: set<string>)
  {
    forall id :: (id in results <==> id in before || (id in ids && id in ResultIds(run))) &&
      (id in before ==> results[id] == before[id]) &&
      (id !in before && id in ids && id in ResultIds(run) ==>
        FirstResult(run, id).Some? && FirstResult(run, id).value.ToolResult? &&
        results[id] == NormalizeToolResultName(FirstResult(run, id).value, NameById(calls, id)))
  }

  lemma {:induction false} FirstIsResult(run: seq<Message>, id: string)
    requires id != ""
    ensures var r := FirstResult(run, id);
      (r.Some? <==> id in ResultIds(run)) && (r.Some? ==> r.value.ToolResult? && ResultId(r.value) == Some(id))
    decreases |run|
  {
    if run == [] {
    } else {
      FirstIsResult(run[1..], id);
    }
  }

  lemma HeadResult(run: seq<Message>, id: string)
    requires run != [] && id != ""
    ensures FirstResult(run, id) == if id in IdsOf(run[0]) then Some(run[0]) else FirstResult(run[1..], id)
    ensures id in ResultIds(run) <==> id in IdsOf(run[0]) || id in ResultIds(run[1..])
    ensures id in IdsOf(run[0]) ==> run[0].ToolResult?
  {}

  lemma {:induction false} ScanFiles(ms: seq<Message>, calls: seq<ToolCall>, seen: set<string>, s: Span)
    requires "" !in CallIds(calls)
    ensures FiledFrom(ScanSpan(ms, calls, seen, s).results, s.results, RunOf(ms), calls, CallIds(calls) - seen)
    decreases |ms|
  {
    hide CallIds, SpanStep, RunOf, ResultId, NameById, NormalizeToolResultName, FirstResult, ResultIds, IdsOf;
    if ms == [] || ms[0].Assistant? {
      NoRun(ms);
    } else {
      var next := SpanStep(ms[0], calls, seen, s);
      RunCons(ms);
      ScanFiles(ms[1..], calls, seen, next);
      StepFiles(ms[0], calls, seen, s);
      forall id | id != "" ensures FirstResult(RunOf(ms), id) ==
        (if id in IdsOf(ms[0]) then Some(ms[0]) else FirstResult(RunOf(ms[1..]), id)) &&
        (id in ResultIds(RunOf(ms)) <==> id in IdsOf(ms[0]) || id in ResultIds(RunOf(ms[1..]))) {
        HeadResult(RunOf(ms), id);
      }
    }
  }

  lemma StepFiles(m: Message, calls: seq<ToolCall>, seen: set<string>, s: Span)
    requires !m.Assistant? && "" !in CallIds(calls)
    ensures var r, ids := SpanStep(m, calls, seen, s).results, CallIds(calls) - seen;
      forall id :: (id in r <==> id in s.results || (id in ids && id in IdsOf(m))) &&
        (id in s.results ==> r[id] == s.results[id]) &&
        (id !in s.results && id in ids && id in IdsOf(m) ==>
          m.ToolResult? && m.id == Some(id) && r[id] == NormalizeToolResultName(m, NameById(calls, id)))
  {
    hide NameById, NormalizeToolResultName;
  }

  lemma {:induction false} PushAnswers(calls: seq<ToolCall>, all: seq<ToolCall>, run: seq<Message>,
      results: map<string, Message>, ids: set<string>, st: Repair)
    requires Filed(results) && FiledFrom(results, map[], run, all, ids)
    requires forall c :: c in calls ==> c.id != "" && (c.id in ids || c.id in st.seen)
    ensures PushCalls(calls, results, st).out == st.out + Answers(calls, all, run, st.seen)
    decreases |calls|
  {
    hide FiledFrom, FirstResult, NormalizeToolResultName, Filed, PushToolResult, Answer;
    if calls == [] {
      assert st.out + [] == st.out;
    } else {
      var c := calls[0];
      assert c in calls;
      assert forall d :: d in calls[1..] ==> d in calls;
      AnswerFiled(c, all, run, results, ids);
      var m := if c.id in results then results[c.id] else MakeMissingToolResult(c);
      var base := if c.id in results then st else st.(added := st.added + [m], changed := true);
      PushOne(base, m, c.id, results);
      PushAnswers(calls[1..], all, run, results, ids, PushToolResult(base, m));
      if c.id !in st.seen {
        OneMoreOut(st.out, m, Answers(calls[1..], all, run, st.seen + {c.id}));
      } else {
        assert st.seen + {c.id} == st.seen;
      }
    }
  }

  lemma PushOne(st: Repair, m: Message, id: string, results: map<string, Message>)
    requires m.ToolResult? && ResultId(m) == Some(id)
    ensures var r := PushToolResult(st, m);
      r.out == (if id in st.seen then st.out else st.out + [m]) && r.seen == st.seen + {id}
  {}

  lemma AnswerFiled(c: ToolCall, all: seq<ToolCall>, run: seq<Message>, results: map<string, Message>, ids: set<string>)
    requires c.id != "" && Filed(results) && FiledFrom(results, map[], run, all, ids)
    ensures var m := if c.id in results then results[c.id] else MakeMissingToolResult(c);
      m.ToolResult? && ResultId(m) == Some(c.id) && (c.id in ids ==> m == Answer(c, all, run))
  {
    hide NormalizeToolResultName, NameById, FirstResult;
    FirstIsResult(run, c.id);
  }

  lemma NoEmptyId(calls: seq<ToolCall>)
    requires forall c :: c in calls ==> c.id != ""
    ensures "" !in CallIds(calls)
  {}

  lemma TurnOut(turn: Message, ms: seq<Message>, st: Repair)
    requires IsTurn(turn)
    ensures var calls := EffectiveCalls(turn);
      var r := RepairTurn(turn, SpanAfter(ms, calls, st.seen), st);
      r.out == st.out + [turn] + Answers(calls, calls, RunOf(ms), st.seen) + NonTool(RunOf(ms))
  {
    hide CallIds, ScanSpan, PushCalls, EffectiveCalls, Filed, NonTool, FiledFrom;
    var calls := EffectiveCalls(turn);
    var span := SpanAfter(ms, calls, st.seen);
    TurnAccounts(turn, ms, st);
    SpanNonTool(ms, calls, st.seen);
    NamedCalls(turn);
    NoEmptyId(calls);
    ScanFiles(ms, calls, st.seen, EMPTY_SPAN);
    var ids := CallIds(calls) - st.seen;
    forall c | c in calls ensures c.id in ids || c.id in st.seen {
      IdOfCall(calls, c);
    }
    PushAnswers(calls, calls, RunOf(ms), span.results, ids, Begun(turn, span, st));
  }

  lemma ReferenceStep(ms: seq<Message>, seen: set<string>)
    requires ms != [] && !ms[0].Assistant?
    ensures Reference(ms, seen) == (if ms[0].ToolResult? then [] else [ms[0]]) + Reference(ms[1..], seen)
  {
    hide Answers;
    assert [] + Reference(ms[1..], seen) == Reference(ms[1..], seen);
  }

  lemma NonToolStep(ms: seq<Message>, k: nat)
    requires 0 < k <= |ms|
    ensures NonTool(ms[..k]) == (if ms[0].ToolResult? then [] else [ms[0]]) + NonTool(ms[1..][..k - 1])
    ensures ms[1..][k - 1..] == ms[k..]
  {
    assert ms[..k][1..] == ms[1..][..k - 1];
  }

  /** Over a run the reference form only drops the tool results. */
  lemma {:induction false} ReferencePastRun(ms: seq<Message>, k: nat, seen: set<string>)
    requires k <= SpanLength(ms)
    ensures Reference(ms, seen) == NonTool(ms[..k]) + Reference(ms[k..], seen)
    decreases k
  {
    hide NonTool, Reference;
    if k == 0 {
      NonToolEmpty();
      assert ms[..0] == [] && ms[0..] == ms;
    } else {
      ReferencePastRun(ms[1..], k - 1, seen);
      ReferenceStep(ms, seen);
      NonToolStep(ms, k);
    }
  }

  /** The repair with its spans, its result map and its moved messages emits exactly the reference form, on every
      input. */
  lemma {:induction false} RepairIsReference(ms: seq<Message>, st: Repair)
    ensures RepairFrom(ms, st).out == st.out + Reference(ms, st.seen)
    decreases |ms|
  {
    hide SpanAfter, RepairTurn, EffectiveCalls, CallIds, Answers, RunOf, NonTool;
    if ms == [] {
      assert st.out + [] == st.out;
    } else if ms[0].ToolResult? {
      RepairIsReference(ms[1..], st.(orphans := st.orphans + 1, changed := true));
    } else if !IsTurn(ms[0]) {
      RepairIsReference(ms[1..], st.(out := st.out + [ms[0]]));
      assert st.out + [ms[0]] + Reference(ms[1..], st.seen) == st.out + ([ms[0]] + Reference(ms[1..], st.seen));
    } else {
      var calls := EffectiveCalls(ms[0]);
      var span := SpanAfter(ms[1..], calls, st.seen);
      TurnAccounts(ms[0], ms[1..], st);
      TurnOut(ms[0], ms[1..], st);
      RepairIsReference(ms[1 + span.length..], RepairTurn(ms[0], span, st));
      ReferencePastRun(ms[1..], span.length, st.seen + CallIds(calls));
      RunIs(ms[1..]);
      assert ms[1..][span.length..] == ms[1 + span.length..];
      var answers := Answers(calls, calls, RunOf(ms[1..]), st.seen);
      FourPieces(st.out, ms[0], answers, NonTool(RunOf(ms[1..])),
        Reference(ms[1 + span.length..], st.seen + CallIds(calls)));
    }
  }

  lemma RunIs(ms: seq<Message>)
    ensures RunOf(ms) == ms[..SpanLength(ms)]
  {}

  lemma FourPieces(out: seq<Message>, turn: Message, a: seq<Message>, b: seq<Message>, c: seq<Message>)
    ensures out + [turn] + a + b + c == out + ([turn] + a + (b + c))
  {}

  // -------------------------------------------------- when nothing has to change

  /** The run is exactly what the turn's calls expect: only results for them, under their right names, and one for each
      call; and no id is called twice. */
  ghost predicate FineTurn(calls: seq<ToolCall>, run: seq<Message>, seen: set<string>) {
    |CallIds(calls)| == |calls| && CallIds(calls) !! seen && CallIds(calls) <= ResultIds(run) &&
    forall m :: m in run ==> FineResult(m, calls)
  }

  predicate FineResult(m: Message, calls: seq<ToolCall>) {
    m.ToolResult? && ResultId(m).Some? && ResultId(m).value in CallIds(calls) &&
    NormalizeToolResultName(m, NameById(calls, ResultId(m).value)) == m
  }

  /** Tool results follow their turns only, and all turns are fine. */
  ghost predicate Untouched(ms: seq<Message>, seen: set<string>)
    decreases |ms|
  {
    ms == [] ||
    if ms[0].ToolResult? then false
    else if !IsTurn(ms[0]) then Untouched(ms[1..], seen)
    else
      var calls := EffectiveCalls(ms[0]);
      FineTurn(calls, RunOf(ms[1..]), seen) && Untouched(ms[1 + SpanLength(ms[1..])..], seen + CallIds(calls))
  }

  lemma {:induction false} ScanChangedExactly(ms: seq<Message>, calls: seq<ToolCall>, seen: set<string>, s: Span)
    requires CallIds(calls) !! seen
    ensures ScanSpan(ms, calls, seen, s).changed <==>
      s.changed || exists m :: m in RunOf(ms) && m.ToolResult? && !FineResult(m, calls)
    decreases |ms|
  {
    hide CallIds, SpanStep, RunOf, FineResult;
    if ms == [] || ms[0].Assistant? {
      NoRun(ms);
    } else {
      RunCons(ms);
      StepChangedExactly(ms[0], calls, seen, s);
      ScanChangedExactly(ms[1..], calls, seen, SpanStep(ms[0], calls, seen, s));
      assert forall m :: m in RunOf(ms) <==> m == ms[0] || m in RunOf(ms[1..]);
    }
  }

  lemma StepChangedExactly(m: Message, calls: seq<ToolCall>, seen: set<string>, s: Span)
    requires CallIds(calls) !! seen
    ensures SpanStep(m, calls, seen, s).changed <==> s.changed || (m.ToolResult? && !FineResult(m, calls))
  {
    hide CallIds, NameById, NormalizeToolResultName;
  }

  lemma {:induction false} PushChangedExactly(calls: seq<ToolCall>, results: map<string, Message>, st: Repair)
    requires Filed(results) && forall c :: c in calls ==> c.id != ""
    ensures PushCalls(calls, results, st).changed <==>
      st.changed || !(|CallIds(calls)| == |calls| && CallIds(calls) !! st.seen && CallIds(calls) <= results.Keys)
    decreases |calls|
  {
    hide CallIds, PushToolResult, Filed;
    if calls == [] {
      NoIds();
    } else {
      var c, rest := calls[0], calls[1..];
      assert c in calls;
      FiledAt(results);
      var m := if c.id in results then results[c.id] else MakeMissingToolResult(c);
      var base := if c.id in results then st else st.(added := st.added + [m], changed := true);
      PushOneChanged(base, m, c.id);
      PushChangedExactly(rest, results, PushToolResult(base, m));
      CallIdsCons(calls);
      IdCount(rest);
      if c.id in CallIds(rest) {
        assert CallIds(calls) == CallIds(rest);
      } else {
        assert |CallIds(calls)| == 1 + |CallIds(rest)|;
      }
    }
  }

  lemma FiledAt(results: map<string, Message>)
    requires Filed(results)
    ensures forall id :: id in results ==> results[id].ToolResult? && ResultId(results[id]) == Some(id)
  {}

  lemma PushOneChanged(st: Repair, m: Message, id: string)
    requires m.ToolResult? && ResultId(m) == Some(id)
    ensures var r := PushToolResult(st, m); (r.changed <==> st.changed || id in st.seen) && r.seen == st.seen + {id}
  {}

  /** A turn and its run change exactly when the turn is not fine. */
  lemma TurnChangedExactly(turn: Message, ms: seq<Message>, st: Repair)
    requires IsTurn(turn)
    ensures var calls := EffectiveCalls(turn);
      RepairTurn(turn, SpanAfter(ms, calls, st.seen), st).changed <==>
        st.changed || !FineTurn(calls, RunOf(ms), st.seen)
  {
    hide CallIds, ScanSpan, PushCalls, EffectiveCalls, Filed, FineResult, RunOf, ResultIds;
    var calls := EffectiveCalls(turn);
    var span := SpanAfter(ms, calls, st.seen);
    var begun := Begun(turn, span, st);
    NamedCalls(turn);
    PushChangedExactly(calls, span.results, begun);
    ScanAccounts(ms, calls, st.seen, EMPTY_SPAN);
    SpanNonTool(ms, calls, st.seen);
    RunIs(ms);
    SomeId(calls);
    if CallIds(calls) !! st.seen {
      ScanChangedExactly(ms, calls, st.seen, EMPTY_SPAN);
      assert CallIds(calls) - st.seen == CallIds(calls);
      forall m ensures m in span.remainder <==> m in RunOf(ms) && !m.ToolResult? {
        NonToolMembers(RunOf(ms), m);
      }
      OnlyFine(RunOf(ms), calls);
      if FineTurn(calls, RunOf(ms), st.seen) {
        NoMembers(span.remainder);
      } else if !span.changed && CallIds(calls) <= span.results.Keys && |CallIds(calls)| == |calls| {
        var m :| m in RunOf(ms) && !FineResult(m, calls);
        assert m in span.remainder;
        assert span.results != map[];
      }
    }
  }

  lemma NoMembers(ms: seq<Message>)
    ensures ms == [] <==> forall m :: m !in ms
  {
    assert ms != [] ==> ms[0] in ms;
  }

  lemma OnlyFine(run: seq<Message>, calls: seq<ToolCall>)
    ensures forall m :: m in run && FineResult(m, calls) ==> m.ToolResult?
  {}

  lemma SomeId(calls: seq<ToolCall>)
    ensures calls != [] ==> CallIds(calls) != {}
  {
    if calls != [] {
      assert calls[0].id in CallIds(calls);
    }
  }

  lemma {:induction false} ChangedExactly(ms: seq<Message>, st: Repair)
    ensures RepairFrom(ms, st).changed <==> st.changed || !Untouched(ms, st.seen)
    decreases |ms|
  {
    hide SpanAfter, RepairTurn, EffectiveCalls, CallIds, RunOf, FineTurn;
    if ms == [] {
    } else if ms[0].ToolResult? {
      RepairFromChanged(ms[1..], st.(orphans := st.orphans + 1, changed := true));
    } else if !IsTurn(ms[0]) {
      ChangedExactly(ms[1..], st.(out := st.out + [ms[0]]));
    } else {
      var span := SpanAfter(ms[1..], EffectiveCalls(ms[0]), st.seen);
      TurnAccounts(ms[0], ms[1..], st);
      TurnChangedExactly(ms[0], ms[1..], st);
      ChangedExactly(ms[1 + span.length..], RepairTurn(ms[0], span, st));
    }
  }

  /** The repaired history is the reference form, unless every run already holds results for its turn's calls only,
      under their right names and at least one for each, and no id is called twice: then, and only then, the history is
      handed back as it is. */
  lemma RepairedExactly(ms: seq<Message>)
    ensures var r := Repaired(ms);
      (r.moved <==> !Untouched(ms, {})) && r.messages == if r.moved then Reference(ms, {}) else ms
  {
    hide RepairFrom, Reference, Untouched;
    RepairIsReference(ms, NO_REPAIR);
    ChangedExactly(ms, NO_REPAIR);
    assert [] + Reference(ms, {}) == Reference(ms, {});
  }

  // ------------------------------------------------------------ the reported orphans

  /** The tool results that belong to no call: those outside all runs, and those of a run for other ids. */
  function Strays(ms: seq<Message>): int
    decreases |ms|
  {
    if ms == [] then 0
    else if ms[0].ToolResult? then 1 + Strays(ms[1..])
    else if !IsTurn(ms[0]) then Strays(ms[1..])
    else
      var run := RunOf(ms[1..]);
      |run| - |NonTool(run)| - Usable(run, CallIds(EffectiveCalls(ms[0]))) + Strays(ms[1 + SpanLength(ms[1..])..])
  }

  lemma {:induction false} ScanOrphans(ms: seq<Message>, calls: seq<ToolCall>, seen: set<string>, s: Span)
    ensures var run := RunOf(ms);
      ScanSpan(ms, calls, seen, s).orphans == s.orphans + |run| - |NonTool(run)| - Usable(run, CallIds(calls))
    decreases |ms|
  {
    hide CallIds, SpanStep, RunOf, ResultId, NonTool;
    NonToolEmpty();
    if ms == [] || ms[0].Assistant? {
      NoRun(ms);
    } else {
      RunCons(ms);
      NonToolCons(RunOf(ms));
      StepOrphans(ms[0], calls, seen, s);
      ScanOrphans(ms[1..], calls, seen, SpanStep(ms[0], calls, seen, s));
    }
  }

  lemma StepOrphans(m: Message, calls: seq<ToolCall>, seen: set<string>, s: Span)
    ensures SpanStep(m, calls, seen, s).orphans ==
      s.orphans + if m.ToolResult? && !Answering(m, CallIds(calls)) then 1 else 0
  {
    hide CallIds, NameById, NormalizeToolResultName;
  }

  /** A repair reports exactly the strays as orphans. */
  lemma {:induction false} OrphansExactly(ms: seq<Message>, st: Repair)
    ensures RepairFrom(ms, st).orphans == st.orphans + Strays(ms)
    decreases |ms|
  {
    hide SpanAfter, RepairTurn, EffectiveCalls, CallIds, RunOf, NonTool;
    if ms == [] {
    } else if ms[0].ToolResult? {
      OrphansExactly(ms[1..], st.(orphans := st.orphans + 1, changed := true));
    } else if !IsTurn(ms[0]) {
      OrphansExactly(ms[1..], st.(out := st.out + [ms[0]]));
    } else {
      var span := SpanAfter(ms[1..], EffectiveCalls(ms[0]), st.seen);
      TurnAccounts(ms[0], ms[1..], st);
      TurnOrphans(ms[0], ms[1..], st);
      OrphansExactly(ms[1 + span.length..], RepairTurn(ms[0], span, st));
    }
  }

  lemma TurnOrphans(turn: Message, ms: seq<Message>, st: Repair)
    requires IsTurn(turn)
    ensures var calls, run := EffectiveCalls(turn), RunOf(ms);
      RepairTurn(turn, SpanAfter(ms, calls, st.seen), st).orphans ==
        st.orphans + |run| - |NonTool(run)| - Usable(run, CallIds(calls))
  {
    hide CallIds, ScanSpan, PushCalls, EffectiveCalls, Filed, RunOf, NonTool;
    var calls := EffectiveCalls(turn);
    var span := SpanAfter(ms, calls, st.seen);
    ScanOrphans(ms, calls, st.seen, EMPTY_SPAN);
    NamedCalls(turn);
    PushAccounts(calls, span.results, Begun(turn, span, st));
  }
}
