// What a repair of src/agents/session-transcript-repair.ts does to the number of
// messages, and where the tool results it keeps come from.
module RepairAccounts {
  import opened JsText
  import opened TranscriptRepair

  // ------------------------------------------------------- turns and their runs

  predicate IsTurn(m: Message) {
    m.Assistant? && EffectiveCalls(m) != []
  }

  /** How many leading messages are not assistant turns. */
  function SpanLength(ms: seq<Message>): (n: nat)
    ensures n <= |ms| && (n < |ms| ==> ms[n].Assistant?) && forall k :: 0 <= k < n ==> !ms[k].Assistant?
  {
    if ms == [] || ms[0].Assistant? then 0 else 1 + SpanLength(ms[1..])
  }

  /** The messages in which a turn's results are looked for: those up to the next assistant turn. */
  function RunOf(ms: seq<Message>): seq<Message> {
    ms[..SpanLength(ms)]
  }

  predicate Answering(m: Message, ids: set<string>) {
    m.ToolResult? && ResultId(m).Some? && ResultId(m).value in ids
  }

  function IdsOf(m: Message): set<string> {
    if m.ToolResult? && ResultId(m).Some? then {ResultId(m).value} else {}
  }

  function ResultIds(run: seq<Message>): set<string> {
    if run == [] then {} else IdsOf(run[0]) + ResultIds(run[1..])
  }

  /** How many results of the run are for one of the ids. */
  function Usable(run: seq<Message>, ids: set<string>): nat {
    if run == [] then 0 else (if Answering(run[0], ids) then 1 else 0) + Usable(run[1..], ids)
  }

  /** How many of the calls have one of the ids. */
  function Taken(calls: seq<ToolCall>, ids: set<string>): nat {
    if calls == [] then 0 else (if calls[0].id in ids then 1 else 0) + Taken(calls[1..], ids)
  }

  /** The calls that no result of their turn's run answers. */
  function Unanswered(ms: seq<Message>): nat {
    if ms == [] then 0 else
    (if IsTurn(ms[0]) then |CallIds(EffectiveCalls(ms[0])) - ResultIds(RunOf(ms[1..]))| else 0) + Unanswered(ms[1..])
  }

  /** The usable results of a run, those for the turn's calls and for ids not seen before, less the calls that take one.
      With distinct call ids these are the repeated results; a repeated call that takes one result twice counts against
      them. */
  function Surplus(run: seq<Message>, calls: seq<ToolCall>, seen: set<string>): int {
    Usable(run, CallIds(calls) - seen) - Taken(calls, ResultIds(run) - seen)
  }

  /** The balance of all runs of a history.  With distinct call ids it is the number of repeated results, which a repair
      passes over without a report. */
  function Repeats(ms: seq<Message>, seen: set<string>): int
    decreases |ms|
  {
    if ms == [] then 0
    else if IsTurn(ms[0]) then
      var calls := EffectiveCalls(ms[0]);
      Surplus(RunOf(ms[1..]), calls, seen) + Repeats(ms[1..], seen + CallIds(calls))
    else Repeats(ms[1..], seen)
  }

  /** No two calls of a history have the same id, and none has an id in `used`. */
  predicate DistinctCalls(ms: seq<Message>, used: set<string>)
    decreases |ms|
  {
    ms == [] ||
    if IsTurn(ms[0]) then
      var calls := EffectiveCalls(ms[0]);
      |CallIds(calls)| == |calls| && CallIds(calls) !! used && DistinctCalls(ms[1..], used + CallIds(calls))
    else DistinctCalls(ms[1..], used)
  }

  // -------------------------------------------------------------- small facts

  lemma RunCons(ms: seq<Message>)
    requires ms != [] && !ms[0].Assistant?
    ensures RunOf(ms) == [ms[0]] + RunOf(ms[1..]) && RunOf(ms)[1..] == RunOf(ms[1..]) && RunOf(ms)[0] == ms[0]
  {}

  /** Messages without calls of their own add nothing to the tallies. */
  lemma {:induction false} SkipRun(ms: seq<Message>, k: nat, seen: set<string>)
    requires k <= SpanLength(ms)
    ensures Unanswered(ms) == Unanswered(ms[k..]) && Repeats(ms, seen) == Repeats(ms[k..], seen)
    ensures DistinctCalls(ms, seen) <==> DistinctCalls(ms[k..], seen)
    decreases k
  {
    hide Surplus, EffectiveCalls, CallIds, ResultIds;
    if k == 0 {
      assert ms[0..] == ms;
    } else {
      SkipRun(ms[1..], k - 1, seen);
      assert ms[1..][k - 1..] == ms[k..];
    }
  }

  lemma {:induction false} TakenOf(calls: seq<ToolCall>, a: set<string>, b: set<string>)
    requires forall c :: c in calls ==> (c.id in a <==> c.id in b)
    ensures Taken(calls, a) == Taken(calls, b)
    decreases |calls|
  {
    if calls == [] {
    } else {
      TakenOf(calls[1..], a, b);
    }
  }

  lemma CallIdsCons(calls: seq<ToolCall>)
    requires calls != []
    ensures CallIds(calls) == {calls[0].id} + CallIds(calls[1..])
  {}

  lemma {:induction false} IdCount(calls: seq<ToolCall>)
    ensures |CallIds(calls)| <= |calls|
    decreases |calls|
  {
    if calls == [] {
      assert CallIds(calls) == {};
    } else {
      IdCount(calls[1..]);
      CallIdsCons(calls);
    }
  }

  lemma DistinctTail(calls: seq<ToolCall>)
    requires calls != [] && |CallIds(calls)| == |calls|
    ensures |CallIds(calls[1..])| == |calls| - 1 && calls[0].id !in CallIds(calls[1..])
  {
    CallIdsCons(calls);
    IdCount(calls[1..]);
  }

  /** Calls with distinct ids: as many have an id in the set as the set shares with their ids. */
  lemma {:induction false} TakenDistinct(calls: seq<ToolCall>, ids: set<string>)
    requires |CallIds(calls)| == |calls|
    ensures Taken(calls, ids) == |CallIds(calls) * ids| == |calls| - |CallIds(calls) - ids|
    decreases |calls|
  {
    hide CallIds;
    if calls == [] {
      NoIds();
    } else {
      var id, rest := calls[0].id, CallIds(calls[1..]);
      CallIdsCons(calls);
      DistinctTail(calls);
      TakenDistinct(calls[1..], ids);
      OneMoreId(id, rest, ids);
    }
  }

  lemma OneMoreId(id: string, rest: set<string>, ids: set<string>)
    requires id !in rest
    ensures |({id} + rest) * ids| == |rest * ids| + if id in ids then 1 else 0
    ensures |({id} + rest) - ids| == |rest - ids| + if id in ids then 0 else 1
  {
    assert ({id} + rest) * ids == (if id in ids then {id} else {}) + rest * ids;
    assert ({id} + rest) - ids == (if id in ids then {} else {id}) + (rest - ids);
  }

  lemma NoIds()
    ensures CallIds([]) == {}
  {}

  /** A run holds at least one usable result for every id it has one for. */
  lemma {:induction false} UsableCovers(run: seq<Message>, ids: set<string>)
    ensures Usable(run, ids) >= |ResultIds(run) * ids|
    decreases |run|
  {
    hide ResultId;
    if run == [] {
    } else {
      UsableCovers(run[1..], ids);
      var rest := ResultIds(run[1..]) * ids;
      var more := IdsOf(run[0]) * ids;
      assert ResultIds(run) * ids == more + rest;
      assert |more + rest| == |more| + |rest - more| && |rest - more| <= |rest| by {
        assert more + rest == more + (rest - more);
        assert rest == (rest - more) + (rest * more);
      }
      assert more == if Answering(run[0], ids) then IdsOf(run[0]) else {};
    }
  }

  /** For calls with fresh and distinct ids the surplus does not depend on what was seen, and is no debt. */
  lemma SurplusDistinct(run: seq<Message>, calls: seq<ToolCall>, seen: set<string>)
    requires |CallIds(calls)| == |calls| && CallIds(calls) !! seen
    ensures Surplus(run, calls, seen) == Surplus(run, calls, {}) >= 0
  {
    hide CallIds, Taken, Usable, ResultIds;
    var ids := CallIds(calls);
    assert ids - seen == ids && ids - {} == ids && ResultIds(run) - {} == ResultIds(run);
    TakenDistinct(calls, ResultIds(run) - seen);
    TakenDistinct(calls, ResultIds(run));
    assert ids * (ResultIds(run) - seen) == ids * ResultIds(run) == ResultIds(run) * ids;
    UsableCovers(run, ids);
  }

  // ----------------------------------------------------- one turn and its run

  /** The pass over a run: it reaches the next assistant turn, and accounts for every message on the way. */
  lemma {:induction false} ScanAccounts(ms: seq<Message>, calls: seq<ToolCall>, seen: set<string>, s: Span)
    ensures var r := ScanSpan(ms, calls, seen, s);
      r.length == s.length + SpanLength(ms) &&
      |r.remainder| + r.orphans + r.duplicates + Usable(RunOf(ms), CallIds(calls) - seen) ==
        |s.remainder| + s.orphans + s.duplicates + SpanLength(ms) &&
      r.results.Keys == s.results.Keys + ResultIds(RunOf(ms)) * (CallIds(calls) - seen)
    decreases |ms|
  {
    hide CallIds, SpanStep, RunOf, ResultId;
    if ms == [] || ms[0].Assistant? {
      NoRun(ms);
    } else {
      var next := SpanStep(ms[0], calls, seen, s);
      RunCons(ms);
      StepAccounts(ms[0], calls, seen, s);
      ScanAccounts(ms[1..], calls, seen, next);
      var ids := CallIds(calls) - seen;
      assert ResultIds(RunOf(ms)) * ids == IdsOf(ms[0]) * ids + ResultIds(RunOf(ms[1..])) * ids;
    }
  }

  lemma NoRun(ms: seq<Message>)
    requires SpanLength(ms) == 0
    ensures RunOf(ms) == [] && ResultIds([]) == {} && forall ids :: Usable([], ids) == 0
  {}

  lemma StepAccounts(m: Message, calls: seq<ToolCall>, seen: set<string>, s: Span)
    ensures var r := SpanStep(m, calls, seen, s);
      var ids := CallIds(calls) - seen;
      r.length == s.length + 1 && r.results.Keys == s.results.Keys + IdsOf(m) * ids &&
      |r.remainder| + r.orphans + r.duplicates + (if Answering(m, ids) then 1 else 0) ==
        |s.remainder| + s.orphans + s.duplicates + 1
  {
    hide CallIds, NormalizeToolResultName, NameById, ResultId;
  }

  lemma PushAccountsOne(st: Repair, m: Message)
    requires m.ToolResult?
    ensures var r := PushToolResult(st, m);
      |r.out| + r.duplicates == |st.out| + st.duplicates + 1 && r.added == st.added && r.orphans == st.orphans &&
      r.seen == st.seen + IdsOf(m)
  {}

  /** Every call is answered once: it adds a message or counts as a duplicate. */
  lemma {:induction false} PushAccounts(calls: seq<ToolCall>, results: map<string, Message>, st: Repair)
    requires Filed(results) && forall c :: c in calls ==> c.id != ""
    ensures var r := PushCalls(calls, results, st);
      |r.out| + r.duplicates == |st.out| + st.duplicates + |calls| && r.orphans == st.orphans &&
      |r.added| == |st.added| + |calls| - Taken(calls, results.Keys) && r.seen == st.seen + CallIds(calls)
    decreases |calls|
  {
    hide CallIds, PushToolResult;
    if calls == [] {
      NoIds();
      assert st.seen + {} == st.seen;
    } else {
      var c := calls[0];
      var m := if c.id in results then results[c.id] else MakeMissingToolResult(c);
      var base := if c.id in results then st else st.(added := st.added + [m], changed := true);
      assert c in calls && ResultId(m) == Some(c.id);
      PushAccountsOne(base, m);
      PushAccounts(calls[1..], results, PushToolResult(base, m));
      CallIdsCons(calls);
      assert st.seen + {c.id} + CallIds(calls[1..]) == st.seen + CallIds(calls);
    }
  }

  /** A turn and its run: what comes out, what is reported and what is passed over add up to what went in. */
  lemma TurnAccounts(turn: Message, ms: seq<Message>, st: Repair)
    requires IsTurn(turn)
    ensures var calls := EffectiveCalls(turn);
      var span := SpanAfter(ms, calls, st.seen);
      var r := RepairTurn(turn, span, st);
      span.length == SpanLength(ms) && r.seen == st.seen + CallIds(calls) &&
      |r.added| == |st.added| + |calls| - Taken(calls, ResultIds(RunOf(ms)) - st.seen) &&
      |r.out| + r.orphans + r.duplicates + Surplus(RunOf(ms), calls, st.seen) ==
        |st.out| + st.orphans + st.duplicates + 1 + span.length + |r.added| - |st.added|
  {
    hide CallIds, ResultIds, Usable, Taken, RunOf, PushCalls, ScanSpan, EffectiveCalls, Filed;
    var calls := EffectiveCalls(turn);
    var span := SpanAfter(ms, calls, st.seen);
    var run := RunOf(ms);
    ScanAccounts(ms, calls, st.seen, EMPTY_SPAN);
    var begun := Begun(turn, span, st);
    NamedCalls(turn);
    PushAccounts(calls, span.results, begun);
    forall c | c in calls ensures c.id in span.results.Keys <==> c.id in ResultIds(run) - st.seen {
      IdOfCall(calls, c);
    }
    TakenOf(calls, span.results.Keys, ResultIds(run) - st.seen);
  }

  lemma NamedCalls(turn: Message)
    requires turn.Assistant?
    ensures forall c :: c in EffectiveCalls(turn) ==> c.id != ""
  {
    ExtractedIds(turn.calls);
  }

  lemma IdOfCall(calls: seq<ToolCall>, c: ToolCall)
    requires c in calls
    ensures c.id in CallIds(calls)
  {}

  // --------------------------------------------------------------- whole repairs

  /** What a repair emits, reports as dropped and passes over is what went in and what was added. */
  lemma {:induction false} RepairAccounts(ms: seq<Message>, st: Repair)
    ensures var r := RepairFrom(ms, st);
      |r.out| + r.orphans + r.duplicates + Repeats(ms, st.seen) ==
        |st.out| + st.orphans + st.duplicates + |ms| + |r.added| - |st.added|
    decreases |ms|
  {
    hide SpanAfter, RepairTurn, EffectiveCalls, CallIds, Surplus, RunOf;
    if ms == [] {
    } else if ms[0].ToolResult? {
      RepairAccounts(ms[1..], st.(orphans := st.orphans + 1, changed := true));
    } else if !IsTurn(ms[0]) {
      RepairAccounts(ms[1..], st.(out := st.out + [ms[0]]));
    } else {
      var calls := EffectiveCalls(ms[0]);
      var span := SpanAfter(ms[1..], calls, st.seen);
      TurnAccounts(ms[0], ms[1..], st);
      RepairAccounts(ms[1 + span.length..], RepairTurn(ms[0], span, st));
      SkipRun(ms[1..], span.length, st.seen + CallIds(calls));
      assert ms[1..][span.length..] == ms[1 + span.length..];
    }
  }

  /** A repair that changes nothing has neither added nor dropped. */
  lemma {:induction false} QuietRepair(ms: seq<Message>, st: Repair)
    requires !RepairFrom(ms, st).changed
    ensures var r := RepairFrom(ms, st);
      r.added == st.added && r.orphans == st.orphans && r.duplicates == st.duplicates
    decreases |ms|
  {
    hide SpanAfter, RepairTurn, EffectiveCalls;
    if ms == [] {
    } else if ms[0].ToolResult? {
      RepairFromChanged(ms[1..], st.(orphans := st.orphans + 1, changed := true));
    } else if !IsTurn(ms[0]) {
      QuietRepair(ms[1..], st.(out := st.out + [ms[0]]));
    } else {
      var span := SpanAfter(ms[1..], EffectiveCalls(ms[0]), st.seen);
      var next := RepairTurn(ms[0], span, st);
      if next.changed {
        RepairFromChanged(ms[1 + span.length..], next);
      }
      QuietTurn(ms[0], ms[1..], st);
      QuietRepair(ms[1 + span.length..], next);
    }
  }

  lemma QuietTurn(turn: Message, ms: seq<Message>, st: Repair)
    requires IsTurn(turn)
    ensures var r := RepairTurn(turn, SpanAfter(ms, EffectiveCalls(turn), st.seen), st);
      !r.changed ==> r.added == st.added && r.orphans == st.orphans && r.duplicates == st.duplicates
  {
    hide PushCalls, ScanSpan, EffectiveCalls, Filed;
    var span := SpanAfter(ms, EffectiveCalls(turn), st.seen);
    var begun := Begun(turn, span, st);
    QuietPush(EffectiveCalls(turn), span.results, begun);
    QuietScan(ms, EffectiveCalls(turn), st.seen, EMPTY_SPAN);
  }

  lemma {:induction false} QuietPush(calls: seq<ToolCall>, results: map<string, Message>, st: Repair)
    requires Filed(results)
    ensures var r := PushCalls(calls, results, st);
      (st.changed ==> r.changed) && r.orphans == st.orphans &&
      (!r.changed ==> r.added == st.added && r.duplicates == st.duplicates)
    decreases |calls|
  {
    if calls == [] {
    } else {
      var c := calls[0];
      var m := if c.id in results then results[c.id] else MakeMissingToolResult(c);
      var base := if c.id in results then st else st.(added := st.added + [m], changed := true);
      QuietPush(calls[1..], results, PushToolResult(base, m));
    }
  }

  lemma {:induction false} QuietScan(ms: seq<Message>, calls: seq<ToolCall>, seen: set<string>, s: Span)
    ensures var r := ScanSpan(ms, calls, seen, s);
      (s.changed ==> r.changed) && (!r.changed ==> r.orphans == s.orphans && r.duplicates == s.duplicates)
    decreases |ms|
  {
    hide NormalizeToolResultName, NameById, CallIds;
    if ms == [] || ms[0].Assistant? {
    } else {
      QuietScan(ms[1..], calls, seen, SpanStep(ms[0], calls, seen, s));
    }
  }

  /** The length of a repaired history: the input's, with the synthetic results and without the reported orphans and
      duplicates, and without the balance of the runs only when the repair changed anything at all. */
  lemma RepairedLength(ms: seq<Message>)
    ensures var report := Repaired(ms);
      |report.messages| + report.droppedOrphanCount + report.droppedDuplicateCount ==
        |ms| + |report.added| - if report.moved then Repeats(ms, {}) else 0
  {
    hide RepairFrom, Repeats;
    RepairAccounts(ms, NO_REPAIR);
    if !RepairFrom(ms, NO_REPAIR).changed {
      QuietRepair(ms, NO_REPAIR);
    }
  }

  // ----------------------------------------------- histories with distinct calls

  /** With distinct call ids a repair adds exactly one result per unanswered call, and reports no duplicate. */
  lemma {:induction false} AddedPerUnanswered(ms: seq<Message>, st: Repair)
    requires DistinctCalls(ms, st.seen)
    ensures var r := RepairFrom(ms, st);
      |r.added| == |st.added| + Unanswered(ms) && r.duplicates == st.duplicates
    decreases |ms|
  {
    hide SpanAfter, RepairTurn, EffectiveCalls, CallIds, ResultIds, RunOf;
    if ms == [] {
    } else if ms[0].ToolResult? {
      AddedPerUnanswered(ms[1..], st.(orphans := st.orphans + 1, changed := true));
    } else if !IsTurn(ms[0]) {
      AddedPerUnanswered(ms[1..], st.(out := st.out + [ms[0]]));
    } else {
      var calls := EffectiveCalls(ms[0]);
      var span := SpanAfter(ms[1..], calls, st.seen);
      TurnAccounts(ms[0], ms[1..], st);
      DistinctTurn(ms[0], ms[1..], st);
      SkipRun(ms[1..], span.length, st.seen + CallIds(calls));
      assert ms[1..][span.length..] == ms[1 + span.length..];
      AddedPerUnanswered(ms[1 + span.length..], RepairTurn(ms[0], span, st));
    }
  }

  lemma DistinctTurn(turn: Message, ms: seq<Message>, st: Repair)
    requires IsTurn(turn)
    requires var calls := EffectiveCalls(turn); |CallIds(calls)| == |calls| && CallIds(calls) !! st.seen
    ensures var calls := EffectiveCalls(turn);
      var r := RepairTurn(turn, SpanAfter(ms, calls, st.seen), st);
      r.duplicates == st.duplicates &&
      |calls| - Taken(calls, ResultIds(RunOf(ms)) - st.seen) == |CallIds(calls) - ResultIds(RunOf(ms))|
  {
    hide EffectiveCalls, CallIds, ResultIds, Taken, ScanSpan, PushCalls, RunOf, Filed;
    var calls := EffectiveCalls(turn);
    var span := SpanAfter(ms, calls, st.seen);
    var found := ResultIds(RunOf(ms));
    TakenDistinct(calls, found - st.seen);
    assert CallIds(calls) - (found - st.seen) == CallIds(calls) - found;
    NoSpanDuplicates(ms, calls, st.seen, EMPTY_SPAN);
    var begun := Begun(turn, span, st);
    NamedCalls(turn);
    PushDistinct(calls, span.results, begun);
  }

  lemma {:induction false} NoSpanDuplicates(ms: seq<Message>, calls: seq<ToolCall>, seen: set<string>, s: Span)
    requires CallIds(calls) !! seen
    ensures ScanSpan(ms, calls, seen, s).duplicates == s.duplicates
    decreases |ms|
  {
    hide NormalizeToolResultName, NameById, CallIds;
    if ms == [] || ms[0].Assistant? {
    } else {
      NoSpanDuplicates(ms[1..], calls, seen, SpanStep(ms[0], calls, seen, s));
    }
  }

  /** The results emitted for the calls, in call order. */
  function Emitted(calls: seq<ToolCall>, results: map<string, Message>): (r: seq<Message>)
    ensures |r| == |calls|
  {
    if calls == [] then [] else
    [if calls[0].id in results then results[calls[0].id] else MakeMissingToolResult(calls[0])] +
      Emitted(calls[1..], results)
  }

  lemma {:induction false} PushDistinct(calls: seq<ToolCall>, results: map<string, Message>, st: Repair)
    requires Filed(results) && (forall c :: c in calls ==> c.id != "")
    requires |CallIds(calls)| == |calls| && CallIds(calls) !! st.seen
    ensures var r := PushCalls(calls, results, st);
      r.out == st.out + Emitted(calls, results) && r.duplicates == st.duplicates && r.seen == st.seen + CallIds(calls)
    decreases |calls|
  {
    hide CallIds, PushToolResult;
    if calls == [] {
      NoIds();
      assert st.out + [] == st.out && st.seen + {} == st.seen;
    } else {
      var c := calls[0];
      var m := if c.id in results then results[c.id] else MakeMissingToolResult(c);
      var base := if c.id in results then st else st.(added := st.added + [m], changed := true);
      assert c in calls && ResultId(m) == Some(c.id);
      CallIdsCons(calls);
      DistinctTail(calls);
      PushFresh(m, base);
      var next := PushToolResult(base, m);
      PushDistinct(calls[1..], results, next);
      OneMoreOut(st.out, m, Emitted(calls[1..], results));
      assert st.seen + {c.id} + CallIds(calls[1..]) == st.seen + CallIds(calls);
    }
  }

  lemma OneMoreOut(out: seq<Message>, m: Message, rest: seq<Message>)
    ensures out + [m] + rest == out + ([m] + rest)
  {}

  lemma PushFresh(m: Message, st: Repair)
    requires m.ToolResult? && ResultId(m).Some? && ResultId(m).value !in st.seen
    ensures PushToolResult(st, m) == st.(out := st.out + [m], seen := st.seen + {ResultId(m).value})
  {}

  // ------------------------------------------- where the kept tool results come from

  /** A tool result of the input, perhaps under a normalised name. */
  ghost predicate FromInput(m: Message, ms: seq<Message>) {
    m.ToolResult? && exists x :: x in ms && x.ToolResult? && x.id == m.id && x.body == m.body
  }

  ghost predicate AllFromInput(results: map<string, Message>, ms: seq<Message>) {
    forall id :: id in results ==> FromInput(results[id], ms)
  }

  /** Every tool result of `out` is one of the input, or was added. */
  ghost predicate Sourced(out: seq<Message>, ms: seq<Message>, added: seq<Message>) {
    forall m :: m in out && m.ToolResult? ==> m in added || FromInput(m, ms)
  }

  lemma SourcedSnoc(out: seq<Message>, m: Message, ms: seq<Message>, added: seq<Message>, more: seq<Message>)
    requires Sourced(out, ms, added) && added <= more && (m.ToolResult? ==> m in more || FromInput(m, ms))
    ensures Sourced(out + [m], ms, more) && Sourced(out, ms, more)
  {
    hide FromInput;
    assert forall x :: x in added ==> x in more;
    assert forall x :: x in out + [m] <==> x in out || x == m;
  }

  lemma StepSourced(next: Message, calls: seq<ToolCall>, seen: set<string>, s: Span, ms: seq<Message>)
    requires next in ms && AllFromInput(s.results, ms)
    ensures AllFromInput(SpanStep(next, calls, seen, s).results, ms)
  {
    hide NameById, CallIds;
  }

  lemma {:induction false} ScanSourced(ms: seq<Message>, calls: seq<ToolCall>, seen: set<string>, s: Span,
      all: seq<Message>)
    requires (forall m :: m in ms ==> m in all) && AllFromInput(s.results, all)
    ensures AllFromInput(ScanSpan(ms, calls, seen, s).results, all)
    decreases |ms|
  {
    hide SpanStep, AllFromInput;
    if ms == [] || ms[0].Assistant? {
    } else {
      StepSourced(ms[0], calls, seen, s, all);
      ScanSourced(ms[1..], calls, seen, SpanStep(ms[0], calls, seen, s), all);
    }
  }

  lemma {:induction false} PushSourced(calls: seq<ToolCall>, results: map<string, Message>, st: Repair,
      all: seq<Message>)
    requires Filed(results) && AllFromInput(results, all) && Sourced(st.out, all, st.added)
    ensures var r := PushCalls(calls, results, st); Sourced(r.out, all, r.added)
    decreases |calls|
  {
    hide FromInput, ResultId, Sourced;
    if calls == [] {
    } else {
      var c := calls[0];
      var m := if c.id in results then results[c.id] else MakeMissingToolResult(c);
      var base := if c.id in results then st else st.(added := st.added + [m], changed := true);
      assert c.id !in results ==> base.added[|st.added|] == m;
      SourcedSnoc(st.out, m, all, st.added, base.added);
      PushSourced(calls[1..], results, PushToolResult(base, m), all);
    }
  }

  lemma SourcedOthers(out: seq<Message>, others: seq<Message>, ms: seq<Message>, added: seq<Message>)
    requires Sourced(out, ms, added) && forall m :: m in others ==> m.Other?
    ensures Sourced(out + others, ms, added)
  {
    hide FromInput;
    assert forall x :: x in out + others <==> x in out || x in others;
  }

  lemma TurnSourced(turn: Message, ms: seq<Message>, st: Repair, all: seq<Message>)
    requires IsTurn(turn) && (forall m :: m in ms ==> m in all) && Sourced(st.out, all, st.added)
    ensures var r := RepairTurn(turn, SpanAfter(ms, EffectiveCalls(turn), st.seen), st); Sourced(r.out, all, r.added)
  {
    hide ScanSpan, PushCalls, EffectiveCalls, FromInput, NonTool, Filed, Sourced;
    var calls := EffectiveCalls(turn);
    var span := SpanAfter(ms, calls, st.seen);
    ScanSourced(ms, calls, st.seen, EMPTY_SPAN, all);
    SpanNonTool(ms, calls, st.seen);
    var begun := Begun(turn, span, st);
    SourcedSnoc(st.out, turn, all, st.added, st.added);
    PushSourced(calls, span.results, begun, all);
    var pushed := PushCalls(calls, span.results, begun);
    SourcedOthers(pushed.out, span.remainder, all, pushed.added);
  }

  lemma {:induction false} RepairSourced(ms: seq<Message>, st: Repair, all: seq<Message>)
    requires (forall m :: m in ms ==> m in all) && Sourced(st.out, all, st.added)
    ensures var r := RepairFrom(ms, st); Sourced(r.out, all, r.added)
    decreases |ms|
  {
    hide SpanAfter, RepairTurn, EffectiveCalls, FromInput, Sourced;
    if ms == [] {
    } else if ms[0].ToolResult? {
      RepairSourced(ms[1..], st.(orphans := st.orphans + 1, changed := true), all);
    } else if !IsTurn(ms[0]) {
      SourcedSnoc(st.out, ms[0], all, st.added, st.added);
      RepairSourced(ms[1..], st.(out := st.out + [ms[0]]), all);
    } else {
      var span := SpanAfter(ms[1..], EffectiveCalls(ms[0]), st.seen);
      TurnSourced(ms[0], ms[1..], st, all);
      RepairSourced(ms[1 + span.length..], RepairTurn(ms[0], span, st), all);
    }
  }

  /** Every tool result of a repaired history is one of the input, perhaps renamed, or one of those reported as
      added. */
  lemma KeptResultsAreSourced(ms: seq<Message>)
    ensures var report := Repaired(ms); Sourced(report.messages, ms, report.added)
  {
    hide RepairFrom;
    RepairSourced(ms, NO_REPAIR, ms);
    assert forall m :: m in ms && m.ToolResult? ==> FromInput(m, ms);
  }

  // ------------------------------------------------ and through several repairs

  /** A result for a call that had none, perhaps under a normalised name. */
  ghost predicate Synthetic(m: Message, ms: seq<Message>) {
    m.ToolResult? && m.body == MISSING_RESULT_TEXT &&
    exists t, c :: t in ms && t.Assistant? && c in EffectiveCalls(t) && m.id == Some(c.id)
  }

  /** Every message is one of the input, but a tool result may be renamed, or be synthetic. */
  ghost predicate Originate(out: seq<Message>, ms: seq<Message>) {
    forall m :: m in out ==> if m.ToolResult? then FromInput(m, ms) || Synthetic(m, ms) else m in ms
  }

  lemma {:induction false} PushSynthetic(calls: seq<ToolCall>, results: map<string, Message>, st: Repair, turn: Message,
      all: seq<Message>)
    requires Filed(results) && turn in all && turn.Assistant? && forall c :: c in calls ==> c in EffectiveCalls(turn)
    requires forall m :: m in st.added ==> Synthetic(m, all)
    ensures forall m :: m in PushCalls(calls, results, st).added ==> Synthetic(m, all)
    decreases |calls|
  {
    hide EffectiveCalls, ResultId;
    if calls == [] {
    } else {
      var c := calls[0];
      var m := if c.id in results then results[c.id] else MakeMissingToolResult(c);
      var base := if c.id in results then st else st.(added := st.added + [m], changed := true);
      assert c in calls;
      PushSynthetic(calls[1..], results, PushToolResult(base, m), turn, all);
    }
  }

  lemma {:induction false} AddedSynthetic(ms: seq<Message>, st: Repair, all: seq<Message>)
    requires (forall m :: m in ms ==> m in all) && forall m :: m in st.added ==> Synthetic(m, all)
    ensures forall m :: m in RepairFrom(ms, st).added ==> Synthetic(m, all)
    decreases |ms|
  {
    hide SpanAfter, EffectiveCalls, Synthetic, PushCalls, Filed;
    if ms == [] {
    } else if ms[0].ToolResult? {
      AddedSynthetic(ms[1..], st.(orphans := st.orphans + 1, changed := true), all);
    } else if !IsTurn(ms[0]) {
      AddedSynthetic(ms[1..], st.(out := st.out + [ms[0]]), all);
    } else {
      var calls := EffectiveCalls(ms[0]);
      var span := SpanAfter(ms[1..], calls, st.seen);
      assert ms[0] in all;
      PushSynthetic(calls, span.results, Begun(ms[0], span, st), ms[0], all);
      AddedSynthetic(ms[1 + span.length..], RepairTurn(ms[0], span, st), all);
    }
  }

  lemma {:induction false} NonToolMembers(ms: seq<Message>, m: Message)
    ensures m in NonTool(ms) <==> m in ms && !m.ToolResult?
    decreases |ms|
  {
    if ms == [] {
    } else {
      NonToolMembers(ms[1..], m);
      assert m in ms <==> m == ms[0] || m in ms[1..];
    }
  }

  /** One repair. */
  lemma RepairOriginates(ms: seq<Message>)
    ensures Originate(Repaired(ms).messages, ms)
  {
    hide RepairFrom, NonTool, FromInput, Synthetic;
    var out := Repaired(ms).messages;
    KeptResultsAreSourced(ms);
    AddedSynthetic(ms, NO_REPAIR, ms);
    RepairKeepsOthers(ms);
    forall m | m in out && !m.ToolResult? ensures m in ms {
      NonToolMembers(out, m);
      NonToolMembers(ms, m);
    }
  }

  lemma OriginateFurther(out: seq<Message>, between: seq<Message>, ms: seq<Message>)
    requires Originate(out, between) && Originate(between, ms)
    ensures Originate(out, ms)
  {
    hide EffectiveCalls;
    forall m | m in out && m.ToolResult? ensures FromInput(m, ms) || Synthetic(m, ms) {
      if FromInput(m, between) {
        var x :| x in between && x.ToolResult? && x.id == m.id && x.body == m.body;
        assert FromInput(x, ms) || Synthetic(x, ms);
      }
    }
  }
}
