// Histories in which no two tool calls share an id: when pruning counts the
// messages it drops exactly.
module TidyHistory {
  import opened JsText
  import opened TokenChunks
  import opened TranscriptRepair
  import opened RepairAccounts
  import opened HistoryPruning

  /** Every call is answered, by one result in its turn's run. */
  ghost predicate Tidy(ms: seq<Message>) {
    DistinctCalls(ms, {}) && Unanswered(ms) == 0 && Repeats(ms, {}) == 0
  }

  function AllCallIds(ms: seq<Message>): set<string> {
    if ms == [] then {} else (if IsTurn(ms[0]) then CallIds(EffectiveCalls(ms[0])) else {}) + AllCallIds(ms[1..])
  }

  // ------------------------------------------------------------------- appending

  lemma {:induction false} RunAppend(a: seq<Message>, b: seq<Message>)
    ensures RunOf(a + b) == if SpanLength(a) < |a| then RunOf(a) else a + RunOf(b)
    decreases |a|
  {
    if a == [] {
      assert a + b == b;
    } else if a[0].Assistant? {
      assert (a + b)[0] == a[0];
    } else {
      assert (a + b)[1..] == a[1..] + b;
      RunAppend(a[1..], b);
      RunCons(a);
      RunCons(a + b);
    }
  }

  lemma {:induction false} ResultsAppend(a: seq<Message>, b: seq<Message>, ids: set<string>)
    ensures ResultIds(a + b) == ResultIds(a) + ResultIds(b)
    ensures Usable(a + b, ids) == Usable(a, ids) + Usable(b, ids)
    decreases |a|
  {
    hide ResultId;
    if a == [] {
      assert a + b == b;
    } else {
      assert (a + b)[1..] == a[1..] + b;
      ResultsAppend(a[1..], b, ids);
    }
  }

  lemma {:induction false} NoResults(run: seq<Message>, ids: set<string>)
    requires forall m :: m in run ==> !m.ToolResult?
    ensures ResultIds(run) == {} && Usable(run, ids) == 0
    decreases |run|
  {
    if run == [] {
    } else {
      assert run[0] in run;
      NoResults(run[1..], ids);
    }
  }

  /** A run is as good as before when only messages without results join it. */
  lemma RunExtended(a: seq<Message>, b: seq<Message>, calls: seq<ToolCall>, seen: set<string>)
    requires forall m :: m in RunOf(b) ==> !m.ToolResult?
    ensures ResultIds(RunOf(a + b)) == ResultIds(RunOf(a))
    ensures Surplus(RunOf(a + b), calls, seen) == Surplus(RunOf(a), calls, seen)
  {
    hide CallIds, ResultIds, Usable, Taken;
    var ids := CallIds(calls) - seen;
    RunAppend(a, b);
    if SpanLength(a) == |a| {
      assert RunOf(a) == a;
      ResultsAppend(a, RunOf(b), ids);
      NoResults(RunOf(b), ids);
      assert ResultIds(a) + {} == ResultIds(a);
    }
  }

  lemma AppendFront(a: seq<Message>, b: seq<Message>)
    requires a != []
    ensures (a + b)[0] == a[0] && (a + b)[1..] == a[1..] + b
  {}

  lemma {:induction false} UnansweredAppend(a: seq<Message>, b: seq<Message>)
    requires forall m :: m in RunOf(b) ==> !m.ToolResult?
    ensures Unanswered(a + b) == Unanswered(a) + Unanswered(b)
    decreases |a|
  {
    hide CallIds, EffectiveCalls, ResultIds, RunOf;
    if a == [] {
      assert a + b == b;
    } else {
      AppendFront(a, b);
      RunExtended(a[1..], b, [], {});
      UnansweredAppend(a[1..], b);
    }
  }

  lemma {:induction false} RepeatsAppend(a: seq<Message>, b: seq<Message>, seen: set<string>)
    requires forall m :: m in RunOf(b) ==> !m.ToolResult?
    ensures Repeats(a + b, seen) == Repeats(a, seen) + Repeats(b, seen + AllCallIds(a))
    decreases |a|
  {
    hide CallIds, EffectiveCalls, Surplus, RunOf;
    if a == [] {
      assert a + b == b && seen + {} == seen;
    } else {
      AppendFront(a, b);
      SeenAfter(a, seen);
      if IsTurn(a[0]) {
        var calls := EffectiveCalls(a[0]);
        RunExtended(a[1..], b, calls, seen);
        RepeatsAppend(a[1..], b, seen + CallIds(calls));
      } else {
        RepeatsAppend(a[1..], b, seen);
      }
    }
  }

  lemma {:induction false} DistinctAppend(a: seq<Message>, b: seq<Message>, seen: set<string>)
    ensures DistinctCalls(a + b, seen) <==> DistinctCalls(a, seen) && DistinctCalls(b, seen + AllCallIds(a))
    ensures AllCallIds(a + b) == AllCallIds(a) + AllCallIds(b)
    decreases |a|
  {
    hide CallIds, EffectiveCalls;
    if a == [] {
      assert a + b == b && seen + {} == seen;
    } else {
      AppendFront(a, b);
      SeenAfter(a, seen);
      DistinctAppend(a[1..], b, if IsTurn(a[0]) then seen + CallIds(EffectiveCalls(a[0])) else seen);
    }
  }

  lemma SeenAfter(a: seq<Message>, seen: set<string>)
    requires a != []
    ensures seen + AllCallIds(a) ==
      (if IsTurn(a[0]) then seen + CallIds(EffectiveCalls(a[0])) else seen) + AllCallIds(a[1..])
  {}

  // ------------------------------------------------------- what a repair leaves behind

  /** The state of a repair whose output is tidy. */
  ghost predicate Clean(st: Repair) {
    Tidy(st.out) && st.seen == AllCallIds(st.out)
  }

  lemma CleanAppend(st: Repair, segment: seq<Message>, next: Repair)
    requires Clean(st) && DistinctCalls(segment, st.seen) && Unanswered(segment) == 0 && Repeats(segment, st.seen) == 0
    requires forall m :: m in RunOf(segment) ==> !m.ToolResult?
    requires next.out == st.out + segment && next.seen == st.seen + AllCallIds(segment)
    ensures Clean(next)
  {
    hide DistinctCalls, Unanswered, Repeats, AllCallIds, RunOf;
    assert {} + AllCallIds(st.out) == st.seen;
    UnansweredAppend(st.out, segment);
    RepeatsAppend(st.out, segment, {});
    DistinctAppend(st.out, segment, {});
  }

  lemma QuietSegment(m: Message, seen: set<string>)
    requires !m.ToolResult? && !IsTurn(m)
    ensures DistinctCalls([m], seen) && Unanswered([m]) == 0 && Repeats([m], seen) == 0 && AllCallIds([m]) == {}
    ensures forall x :: x in RunOf([m]) ==> !x.ToolResult?
  {
    hide EffectiveCalls;
    assert [m][1..] == [];
  }

  lemma {:induction false} EmittedResults(calls: seq<ToolCall>, results: map<string, Message>, ids: set<string>)
    requires Filed(results) && forall c :: c in calls ==> c.id != ""
    ensures ResultIds(Emitted(calls, results)) == CallIds(calls) &&
      Usable(Emitted(calls, results), ids) == Taken(calls, ids)
    ensures forall m :: m in Emitted(calls, results) ==> m.ToolResult?
    decreases |calls|
  {
    hide CallIds;
    if calls == [] {
      NoIds();
    } else {
      var c := calls[0];
      var m := if c.id in results then results[c.id] else MakeMissingToolResult(c);
      assert c in calls && ResultId(m) == Some(c.id);
      EmittedResults(calls[1..], results, ids);
      CallIdsCons(calls);
    }
  }

  /** A turn with exactly one result per call, and other messages after them. */
  lemma TurnSegment(turn: Message, results: map<string, Message>, others: seq<Message>, seen: set<string>)
    requires IsTurn(turn) && Filed(results) && forall m :: m in others ==> m.Other?
    requires var calls := EffectiveCalls(turn); |CallIds(calls)| == |calls| && CallIds(calls) !! seen
    ensures var calls := EffectiveCalls(turn);
      var segment := [turn] + Emitted(calls, results) + others;
      DistinctCalls(segment, seen) && Unanswered(segment) == 0 && Repeats(segment, seen) == 0 &&
      AllCallIds(segment) == CallIds(calls) && RunOf(segment) == []
  {
    hide EffectiveCalls, CallIds, ResultIds, Taken, Usable, Filed;
    var calls := EffectiveCalls(turn);
    var run := Emitted(calls, results) + others;
    var segment := [turn] + Emitted(calls, results) + others;
    assert segment == [turn] + run && segment[0] == turn && segment[1..] == run;
    NamedCalls(turn);
    EmittedResults(calls, results, CallIds(calls) - seen);
    NoResults(others, CallIds(calls) - seen);
    ResultsAppend(Emitted(calls, results), others, CallIds(calls) - seen);
    NoTurns(run, seen + CallIds(calls));
    assert RunOf(run) == run;
    assert ResultIds(run) == CallIds(calls) + {} == CallIds(calls);
    assert Surplus(run, calls, seen) == 0;
    assert CallIds(calls) - CallIds(calls) == {} && CallIds(calls) + {} == CallIds(calls);
  }

  lemma {:induction false} NoTurns(run: seq<Message>, seen: set<string>)
    requires forall m :: m in run ==> !m.Assistant?
    ensures SpanLength(run) == |run| && DistinctCalls(run, seen) && Unanswered(run) == 0 && Repeats(run, seen) == 0
    ensures AllCallIds(run) == {}
    decreases |run|
  {
    if run == [] {
    } else {
      assert run[0] in run;
      NoTurns(run[1..], seen);
    }
  }

  lemma OutSegment(out: seq<Message>, turn: Message, results: seq<Message>, others: seq<Message>)
    ensures out + [turn] + results + others == out + ([turn] + results + others)
  {}

  lemma CleanTurn(turn: Message, ms: seq<Message>, st: Repair)
    requires IsTurn(turn) && Clean(st)
    requires var calls := EffectiveCalls(turn); |CallIds(calls)| == |calls| && CallIds(calls) !! st.seen
    ensures Clean(RepairTurn(turn, SpanAfter(ms, EffectiveCalls(turn), st.seen), st))
  {
    hide EffectiveCalls, CallIds, ScanSpan, PushCalls, RunOf, Filed, Clean, DistinctCalls, Unanswered, Repeats,
      AllCallIds, NonTool;
    var calls := EffectiveCalls(turn);
    var span := SpanAfter(ms, calls, st.seen);
    SpanNonTool(ms, calls, st.seen);
    var begun := Begun(turn, span, st);
    NamedCalls(turn);
    PushDistinct(calls, span.results, begun);
    TurnSegment(turn, span.results, span.remainder, st.seen);
    hide Emitted, EffectiveCalls;
    var segment := [turn] + Emitted(calls, span.results) + span.remainder;
    OutSegment(st.out, turn, Emitted(calls, span.results), span.remainder);
    CleanAppend(st, segment, RepairTurn(turn, span, st));
  }

  lemma {:induction false} CleanRepair(ms: seq<Message>, st: Repair)
    requires Clean(st) && DistinctCalls(ms, st.seen)
    ensures Clean(RepairFrom(ms, st))
    decreases |ms|
  {
    hide SpanAfter, RepairTurn, EffectiveCalls, CallIds, RunOf, Tidy, AllCallIds;
    if ms == [] {
    } else if ms[0].ToolResult? {
      CleanRepair(ms[1..], st.(orphans := st.orphans + 1, changed := true));
    } else if !IsTurn(ms[0]) {
      QuietSegment(ms[0], st.seen);
      assert st.seen + {} == st.seen;
      CleanAppend(st, [ms[0]], st.(out := st.out + [ms[0]]));
      CleanRepair(ms[1..], st.(out := st.out + [ms[0]]));
    } else {
      var calls := EffectiveCalls(ms[0]);
      var span := SpanAfter(ms[1..], calls, st.seen);
      TurnAccounts(ms[0], ms[1..], st);
      CleanTurn(ms[0], ms[1..], st);
      SkipRun(ms[1..], span.length, st.seen + CallIds(calls));
      assert ms[1..][span.length..] == ms[1 + span.length..];
      CleanRepair(ms[1 + span.length..], RepairTurn(ms[0], span, st));
    }
  }

  /** A repaired history is tidy, if its calls were distinct and its repeated results, if any, were dropped. */
  lemma RepairTidies(ms: seq<Message>)
    requires DistinctCalls(ms, {}) && (Repaired(ms).moved || Repeats(ms, {}) == 0)
    ensures Tidy(Repaired(ms).messages)
  {
    hide RepairFrom, DistinctCalls, Unanswered, Repeats;
    NothingIsClean();
    CleanRepair(ms, NO_REPAIR);
    AddedPerUnanswered(ms, NO_REPAIR);
    if !RepairFrom(ms, NO_REPAIR).changed {
      QuietRepair(ms, NO_REPAIR);
    }
  }

  lemma NothingIsClean()
    ensures Clean(NO_REPAIR)
  {}

  // ------------------------------------------------------------------------ suffixes

  lemma {:induction false} FewerUsed(ms: seq<Message>, used: set<string>, fewer: set<string>)
    requires DistinctCalls(ms, used) && fewer <= used
    ensures DistinctCalls(ms, fewer) && Repeats(ms, used) == Repeats(ms, fewer) >= 0
    decreases |ms|
  {
    hide CallIds, EffectiveCalls, Surplus, RunOf;
    if ms == [] {
    } else if IsTurn(ms[0]) {
      var calls := EffectiveCalls(ms[0]);
      SurplusDistinct(RunOf(ms[1..]), calls, used);
      SurplusDistinct(RunOf(ms[1..]), calls, fewer);
      FewerUsed(ms[1..], used + CallIds(calls), fewer + CallIds(calls));
    } else {
      FewerUsed(ms[1..], used, fewer);
    }
  }

  /** Cutting off the front of a history adds neither unanswered calls nor repeated results to the rest. */
  lemma {:induction false} SuffixTallies(ms: seq<Message>, k: nat)
    requires k <= |ms| && DistinctCalls(ms, {})
    ensures DistinctCalls(ms[k..], {}) && Unanswered(ms[k..]) <= Unanswered(ms) &&
      0 <= Repeats(ms[k..], {}) <= Repeats(ms, {})
    decreases k
  {
    hide CallIds, EffectiveCalls, Surplus, RunOf, ResultIds;
    if k == 0 {
      assert ms[0..] == ms;
      FewerUsed(ms, {}, {});
    } else {
      if IsTurn(ms[0]) {
        var calls := EffectiveCalls(ms[0]);
        SurplusDistinct(RunOf(ms[1..]), calls, {});
        FewerUsed(ms[1..], {} + CallIds(calls), {});
      }
      SuffixTallies(ms[1..], k - 1);
      assert ms[1..][k - 1..] == ms[k..];
    }
  }

  // --------------------------------------------------------------- the reported count

  lemma LaterTallies(est: Message -> nat, kept: seq<Message>, n: nat)
    requires DistinctCalls(kept, {}) && |Cut(est, kept, n)| > 1
    ensures var later := Later(est, kept, n);
      DistinctCalls(later, {}) && Unanswered(later) <= Unanswered(kept) && 0 <= Repeats(later, {}) <= Repeats(kept, {})
  {
    hide DistinctCalls, Unanswered, Repeats, Cut, Later;
    RoundParts(est, kept, n);
    var first, later := Cut(est, kept, n)[0], Later(est, kept, n);
    assert later == kept[|first|..];
    SuffixTallies(kept, |first|);
  }

  lemma {:induction false} TidyAddsNothing(est: Message -> nat, kept: seq<Message>, n: nat, budget: nat)
    requires Tidy(kept)
    ensures NetAdded(est, kept, n, budget) == 0
    decreases |NonTool(kept)|, HeadIsResult(kept)
  {
    hide NonTool, RepairFrom, Cut, Later, Tokens, DistinctCalls, Unanswered, Repeats;
    if GoesOn(est, kept, n, budget) {
      var later := Later(est, kept, n);
      LaterTallies(est, kept, n);
      RoundDecreases(est, kept, n);
      AddedPerUnanswered(later, NO_REPAIR);
      RepairTidies(later);
      TidyAddsNothing(est, Repaired(later).messages, n, budget);
    }
  }

  // ------------------------------------------------- repairs that change nothing

  lemma {:induction false} ScanIgnoresSeen(ms: seq<Message>, calls: seq<ToolCall>, a: set<string>, b: set<string>,
      s: Span)
    requires CallIds(calls) !! a && CallIds(calls) !! b
    ensures ScanSpan(ms, calls, a, s) == ScanSpan(ms, calls, b, s)
    decreases |ms|
  {
    hide NormalizeToolResultName, NameById, CallIds;
    if ms == [] || ms[0].Assistant? {
    } else {
      ScanIgnoresSeen(ms[1..], calls, a, b, SpanStep(ms[0], calls, a, s));
    }
  }

  /** Distinct calls leave a repair unchanged exactly when each finds its result. */
  lemma {:induction false} PushChanges(calls: seq<ToolCall>, results: map<string, Message>, st: Repair)
    requires Filed(results) && (forall c :: c in calls ==> c.id != "")
    requires |CallIds(calls)| == |calls| && CallIds(calls) !! st.seen
    ensures PushCalls(calls, results, st).changed <==> st.changed || exists c :: c in calls && c.id !in results
    decreases |calls|
  {
    hide CallIds, PushToolResult;
    if calls == [] {
    } else {
      var c := calls[0];
      var m := if c.id in results then results[c.id] else MakeMissingToolResult(c);
      var base := if c.id in results then st else st.(added := st.added + [m], changed := true);
      assert c in calls && ResultId(m) == Some(c.id);
      CallIdsCons(calls);
      DistinctTail(calls);
      PushFresh(m, base);
      PushChanges(calls[1..], results, PushToolResult(base, m));
      assert forall x :: x in calls <==> x == c || x in calls[1..];
    }
  }

  lemma TurnIgnoresSeen(turn: Message, ms: seq<Message>, a: Repair, b: Repair)
    requires IsTurn(turn) && a.changed == b.changed
    requires var calls := EffectiveCalls(turn);
      |CallIds(calls)| == |calls| && CallIds(calls) !! a.seen && CallIds(calls) !! b.seen
    ensures var calls := EffectiveCalls(turn);
      SpanAfter(ms, calls, a.seen) == SpanAfter(ms, calls, b.seen) &&
      RepairTurn(turn, SpanAfter(ms, calls, a.seen), a).changed ==
        RepairTurn(turn, SpanAfter(ms, calls, b.seen), b).changed
  {
    hide ScanSpan, PushCalls, EffectiveCalls, CallIds, Filed;
    var calls := EffectiveCalls(turn);
    ScanIgnoresSeen(ms, calls, a.seen, b.seen, EMPTY_SPAN);
    var span := SpanAfter(ms, calls, a.seen);
    NamedCalls(turn);
    PushChanges(calls, span.results, Begun(turn, span, a));
    PushChanges(calls, span.results, Begun(turn, span, b));
  }

  /** Whether a repair changes anything does not depend on what came before. */
  lemma {:induction false} ChangeIgnoresSeen(ms: seq<Message>, a: Repair, b: Repair)
    requires DistinctCalls(ms, a.seen) && DistinctCalls(ms, b.seen) && a.changed == b.changed
    ensures RepairFrom(ms, a).changed == RepairFrom(ms, b).changed
    decreases |ms|
  {
    hide SpanAfter, RepairTurn, EffectiveCalls, CallIds, RunOf;
    if ms == [] {
    } else if ms[0].ToolResult? {
      ChangeIgnoresSeen(ms[1..], a.(orphans := a.orphans + 1, changed := true),
        b.(orphans := b.orphans + 1, changed := true));
    } else if !IsTurn(ms[0]) {
      ChangeIgnoresSeen(ms[1..], a.(out := a.out + [ms[0]]), b.(out := b.out + [ms[0]]));
    } else {
      var calls := EffectiveCalls(ms[0]);
      var span := SpanAfter(ms[1..], calls, a.seen);
      TurnAccounts(ms[0], ms[1..], a);
      TurnAccounts(ms[0], ms[1..], b);
      TurnIgnoresSeen(ms[0], ms[1..], a, b);
      SkipRun(ms[1..], span.length, a.seen + CallIds(calls));
      SkipRun(ms[1..], span.length, b.seen + CallIds(calls));
      assert ms[1..][span.length..] == ms[1 + span.length..];
      ChangeIgnoresSeen(ms[1 + span.length..], RepairTurn(ms[0], span, a), RepairTurn(ms[0], span, b));
    }
  }

  /** A history that needs no repair needs none from any later message on that is not a tool result. */
  lemma {:induction false} UnchangedSuffix(ms: seq<Message>, st: Repair, k: nat)
    requires DistinctCalls(ms, st.seen) && !RepairFrom(ms, st).changed && k <= |ms| && !HeadIsResult(ms[k..])
    ensures !RepairFrom(ms[k..], NO_REPAIR).changed
    decreases |ms|
  {
    hide SpanAfter, RepairTurn, EffectiveCalls, CallIds, RunOf;
    if k == 0 {
      assert ms[0..] == ms;
      FewerUsed(ms, st.seen, {});
      if st.changed {
        RepairFromChanged(ms, st);
      }
      ChangeIgnoresSeen(ms, st, NO_REPAIR);
    } else if ms[0].ToolResult? {
      RepairFromChanged(ms[1..], st.(orphans := st.orphans + 1, changed := true));
    } else if !IsTurn(ms[0]) {
      assert ms[1..][k - 1..] == ms[k..];
      UnchangedSuffix(ms[1..], st.(out := st.out + [ms[0]]), k - 1);
    } else {
      var calls := EffectiveCalls(ms[0]);
      var span := SpanAfter(ms[1..], calls, st.seen);
      var next := RepairTurn(ms[0], span, st);
      if next.changed {
        RepairFromChanged(ms[1 + span.length..], next);
      }
      TurnAccounts(ms[0], ms[1..], st);
      if k <= span.length {
        UnchangedRun(ms[0], ms[1..], st, k - 1);
      } else {
        SkipRun(ms[1..], span.length, st.seen + CallIds(calls));
        assert ms[1..][span.length..] == ms[1 + span.length..];
        assert ms[1 + span.length..][k - 1 - span.length..] == ms[k..];
        UnchangedSuffix(ms[1 + span.length..], next, k - 1 - span.length);
      }
    }
  }

  /** A turn that needs no repair has nothing but results in its run. */
  lemma UnchangedRun(turn: Message, ms: seq<Message>, st: Repair, j: nat)
    requires IsTurn(turn) && j < SpanAfter(ms, EffectiveCalls(turn), st.seen).length <= |ms|
    requires !RepairTurn(turn, SpanAfter(ms, EffectiveCalls(turn), st.seen), st).changed
    ensures ms[j].ToolResult?
  {
    hide ScanSpan, RepairTurn, EffectiveCalls, NonTool;
    var span := SpanAfter(ms, EffectiveCalls(turn), st.seen);
    TurnChanged(turn, span, st);
    SpanNonTool(ms, EffectiveCalls(turn), st.seen);
    assert span.remainder == [];
    OnlyResults(ms[..span.length], j);
  }

  lemma {:induction false} OnlyResults(run: seq<Message>, j: nat)
    requires j < |run| && NonTool(run) == []
    ensures run[j].ToolResult?
    decreases |run|
  {
    if j == 0 {
    } else {
      OnlyResults(run[1..], j - 1);
    }
  }

  // ---------------------------------------------------------------- the exact count

  /** The repeated results behind the first cut that falls inside a turn's run, if the loop gets that far; the rounds
      before it, cutting a history that needs no repair between its turns, leave it as it is. */
  function RepeatsBehindRunCut(est: Message -> nat, kept: seq<Message>, n: nat, budget: nat): int
    decreases |kept|
  {
    if !GoesOn(est, kept, n, budget) then 0 else
    var later := Later(est, kept, n);
    RoundParts(est, kept, n);
    if HeadIsResult(later) then Repeats(later, {}) else RepeatsBehindRunCut(est, later, n, budget)
  }

  lemma {:induction false} UnchangedAdds(est: Message -> nat, kept: seq<Message>, n: nat, budget: nat)
    requires DistinctCalls(kept, {}) && !Repaired(kept).moved
    ensures NetAdded(est, kept, n, budget) == -RepeatsBehindRunCut(est, kept, n, budget)
    decreases |kept|
  {
    hide NonTool, RepairFrom, Cut, Later, Tokens, DistinctCalls, Unanswered, Repeats;
    if GoesOn(est, kept, n, budget) {
      var later := Later(est, kept, n);
      LaterTallies(est, kept, n);
      RoundDecreases(est, kept, n);
      RoundParts(est, kept, n);
      AddedPerUnanswered(kept, NO_REPAIR);
      QuietRepair(kept, NO_REPAIR);
      AddedPerUnanswered(later, NO_REPAIR);
      if HeadIsResult(later) {
        HeadIsDropped(later);
        RepairTidies(later);
        TidyAddsNothing(est, Repaired(later).messages, n, budget);
      } else {
        var first := Cut(est, kept, n)[0];
        assert later == kept[|first|..];
        UnchangedSuffix(kept, NO_REPAIR, |first|);
        UnchangedAdds(est, later, n, budget);
      }
    }
  }

  lemma HeadIsDropped(ms: seq<Message>)
    requires HeadIsResult(ms)
    ensures Repaired(ms).moved
  {
    RepairFromChanged(ms[1..], NO_REPAIR.(orphans := NO_REPAIR.orphans + 1, changed := true));
  }

  /** What a caller may expect of the reported count when no two calls share an id.  If the first repair changes
      anything, the count and the kept messages add up to the input but for the calls without a result after the first
      cut and the repeated results there; if it changes nothing, but for the repeated results behind a later cut
      inside a run. */
  lemma CountExactly(est: Message -> nat, kept: seq<Message>, n: nat, budget: nat, d: Dropped)
    requires DistinctCalls(kept, {})
    ensures var r := PruneFrom(est, kept, n, budget, d);
      r.1.count + |r.0| == d.count + |kept| +
        if !GoesOn(est, kept, n, budget) then 0
        else
          var later := Later(est, kept, n);
          if Repaired(later).moved then Unanswered(later) - Repeats(later, {})
          else -RepeatsBehindRunCut(est, later, n, budget)
  {
    hide NonTool, RepairFrom, Cut, Later, Tokens, DistinctCalls, Unanswered, Repeats, PruneFrom, RepeatsBehindRunCut;
    PruneCount(est, kept, n, budget, d);
    if GoesOn(est, kept, n, budget) {
      var later := Later(est, kept, n);
      LaterTallies(est, kept, n);
      RoundDecreases(est, kept, n);
      AddedPerUnanswered(later, NO_REPAIR);
      if Repaired(later).moved {
        RepairTidies(later);
        TidyAddsNothing(est, Repaired(later).messages, n, budget);
      } else {
        QuietRepair(later, NO_REPAIR);
        UnchangedAdds(est, later, n, budget);
      }
    }
  }

  lemma {:induction false} NoRepeatsBehind(est: Message -> nat, kept: seq<Message>, n: nat, budget: nat)
    requires DistinctCalls(kept, {}) && Repeats(kept, {}) == 0
    ensures RepeatsBehindRunCut(est, kept, n, budget) == 0
    decreases |kept|
  {
    hide Cut, Later, Tokens, DistinctCalls, Unanswered, Repeats;
    if GoesOn(est, kept, n, budget) {
      LaterTallies(est, kept, n);
      RoundParts(est, kept, n);
      NoRepeatsBehind(est, Later(est, kept, n), n, budget);
    }
  }

  /** In a history without repeated results the count is exact if and only if the loop does not run or every call after
      the first cut has its result. */
  lemma CountExactlyWithoutRepeats(est: Message -> nat, kept: seq<Message>, n: nat, budget: nat, d: Dropped)
    requires DistinctCalls(kept, {}) && Repeats(kept, {}) == 0
    ensures var r := PruneFrom(est, kept, n, budget, d);
      r.1.count + |r.0| == d.count + |kept| <==>
        !GoesOn(est, kept, n, budget) || Unanswered(Later(est, kept, n)) == 0
  {
    hide NonTool, RepairFrom, Cut, Later, Tokens, DistinctCalls, Unanswered, Repeats, PruneFrom, RepeatsBehindRunCut;
    CountExactly(est, kept, n, budget, d);
    if GoesOn(est, kept, n, budget) {
      var later := Later(est, kept, n);
      LaterTallies(est, kept, n);
      NoRepeatsBehind(est, later, n, budget);
      AddedPerUnanswered(later, NO_REPAIR);
      if !Repaired(later).moved {
        QuietRepair(later, NO_REPAIR);
      }
    }
  }

  // ---------------------------------------------------- and a history it is not exact for

  const QUESTION := Other("q")
  const TURN := Assistant([ToolCall("c", None)], false, "t")
  const NOTE := Other("n")

  function Sizes(): Message -> nat {
    m => if m == QUESTION then 10 else 1
  }

  /** A turn whose call was never answered gains a synthetic result, so the count comes out one too high. */
  lemma UnansweredCallMiscounted()
    ensures var r := Pruned(Sizes(), [QUESTION, TURN, NOTE], 10, 0.5, Finite(2.0));
      r.droppedMessages == 1 && r.messages == [TURN, MakeMissingToolResult(ToolCall("c", None)), NOTE] &&
        |r.messages| + r.droppedMessages == 4
  {
    hide Repaired, Cut, Later, Tokens;
    var est, ms, later := Sizes(), [QUESTION, TURN, NOTE], [TURN, NOTE];
    var missing := MakeMissingToolResult(ToolCall("c", None));
    assert Budget(10, 0.5) == 5 && NormalizeParts(Finite(2.0), 3) == 2;
    FirstCut();
    TokensOfThree(est, QUESTION, TURN, NOTE);
    RepairOfUnanswered();
    var next := Repaired(later).messages;
    TokensOfThree(est, TURN, missing, NOTE);
    assert !GoesOn(est, next, 2, 5);
    assert GoesOn(est, ms, 2, 5);
    var d := Dropped([QUESTION], 1, 1, 10);
    assert [] + [QUESTION] == [QUESTION];
    assert DropFirst(est, ms, 2, NOTHING_DROPPED) == d;
    assert PruneFrom(est, next, 2, 5, d) == (next, d);
  }

  lemma FirstCut()
    ensures var est, ms := Sizes(), [QUESTION, TURN, NOTE];
      Cut(est, ms, 2) == [[QUESTION], [TURN, NOTE]] && Later(est, ms, 2) == [TURN, NOTE] &&
        Tokens(est, [QUESTION]) == 10
  {
    var est, ms, later := Sizes(), [QUESTION, TURN, NOTE], [TURN, NOTE];
    assert (2.0 as real).Floor == 2 && (2 as real) == 2.0 && NormalizeParts(Finite(2.0), 3) == 2;
    TokensOfThree(est, QUESTION, TURN, NOTE);
    assert Tokens(est, [QUESTION]) == 10 by { assert [QUESTION][1..] == []; }
    ShareOfThree();
    assert [[QUESTION], later][1..] == [later];
    ConcatSingle(later);
  }

  lemma ShareOfThree()
    ensures ShareChunks(Sizes(), [QUESTION, TURN, NOTE], [], [], 2, 12) == [[QUESTION], [TURN, NOTE]]
  {
    var est, ms, later := Sizes(), [QUESTION, TURN, NOTE], [TURN, NOTE];
    assert [QUESTION][1..] == [] && Tokens(est, [QUESTION]) == 10;
    assert ShareChunks(est, [NOTE], [[QUESTION]], [TURN], 2, 12) == [[QUESTION], later] by {
      assert [NOTE][1..] == [] && [TURN] + [NOTE] == later;
      assert [[QUESTION]] + [later] == [[QUESTION], later];
    }
    assert ms[1..] == [TURN, NOTE] && [TURN, NOTE][1..] == [NOTE];
    assert [] + [QUESTION] == [QUESTION] && [] + [[QUESTION]] == [[QUESTION]];
    assert ShareChunks(est, [TURN, NOTE], [], [QUESTION], 2, 12) ==
      ShareChunks(est, [NOTE], [[QUESTION]], [TURN], 2, 12);
  }

  lemma TokensOfThree(est: Message -> nat, a: Message, b: Message, c: Message)
    ensures Tokens(est, [a, b, c]) == est(a) + est(b) + est(c)
  {
    assert [a, b, c][1..] == [b, c] && [b, c][1..] == [c] && [c][1..] == [];
    assert Tokens(est, [b, c]) == est(b) + Tokens(est, [c]);
  }

  lemma RepairOfUnanswered()
    ensures var report := Repaired([TURN, NOTE]);
      report.messages == [TURN, MakeMissingToolResult(ToolCall("c", None)), NOTE] && report.droppedOrphanCount == 0
  {
    var call := ToolCall("c", None);
    var calls := [call];
    assert calls[1..] == [];
    assert ExtractToolCalls(calls) == calls;
    assert [TURN, NOTE][1..] == [NOTE] && [NOTE][1..] == [];
    var span := SpanAfter([NOTE], calls, {});
    assert span == Span(map[], [NOTE], 0, 0, false, 1) by {
      var after := Span(map[], [NOTE], 0, 0, false, 1);
      assert [] + [NOTE] == [NOTE];
      assert SpanStep(NOTE, calls, {}, EMPTY_SPAN) == after;
      assert ScanSpan([NOTE][1..], calls, {}, after) == after;
    }
    var missing := MakeMissingToolResult(call);
    var begun := NO_REPAIR.(out := [TURN]);
    assert PushCalls(calls, map[], begun) == Repair([TURN, missing], [missing], {"c"}, 0, 0, true) by {
      var added := begun.(added := [missing], changed := true);
      assert [] + [missing] == [missing] && [TURN] + [missing] == [TURN, missing];
      assert PushToolResult(added, missing) == Repair([TURN, missing], [missing], {"c"}, 0, 0, true);
      assert PushCalls(calls[1..], map[], PushToolResult(added, missing)) == PushToolResult(added, missing);
    }
    assert [] + [TURN] == [TURN] && [TURN, missing] + [NOTE] == [TURN, missing, NOTE];
    var next := RepairTurn(TURN, span, NO_REPAIR);
    assert next == Repair([TURN, missing, NOTE], [missing], {"c"}, 0, 0, true);
    assert [TURN, NOTE][2..] == [];
    assert RepairFrom([], next) == next;
    assert RepairFrom([TURN, NOTE], NO_REPAIR) == next;
  }
}
