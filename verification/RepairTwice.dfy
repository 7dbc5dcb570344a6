// Repairing a repaired history: when the second repair leaves the messages alone.
module RepairTwice {
  import opened JsText
  import opened TranscriptRepair
  import opened RepairAccounts
  import opened TidyHistory

  /** A name as a normalised tool result carries it. */
  predicate CleanName(c: ToolCall) {
    c.name.Some? ==> c.name.value != "" && Trim(c.name.value) == c.name.value
  }

  /** Every call without a result in its turn's run has a clean name, or none. */
  predicate CleanUnanswered(ms: seq<Message>) {
    ms == [] ||
    ((IsTurn(ms[0]) ==> forall c :: c in EffectiveCalls(ms[0]) && c.id !in ResultIds(RunOf(ms[1..])) ==>
      CleanName(c)) &&
     CleanUnanswered(ms[1..]))
  }

  // ------------------------------------------------------ what a repair appends

  /** What a repair of a history with distinct calls emits. */
  function Mended(ms: seq<Message>): seq<Message>
    decreases |ms|
  {
    if ms == [] then []
    else if ms[0].ToolResult? then Mended(ms[1..])
    else if !IsTurn(ms[0]) then [ms[0]] + Mended(ms[1..])
    else
      var calls := EffectiveCalls(ms[0]);
      var span := SpanAfter(ms[1..], calls, {});
      [ms[0]] + Emitted(calls, span.results) + span.remainder + Mended(ms[1 + span.length..])
  }

  lemma {:induction false} MendedIs(ms: seq<Message>, st: Repair)
    requires DistinctCalls(ms, st.seen)
    ensures RepairFrom(ms, st).out == st.out + Mended(ms)
    decreases |ms|
  {
    hide SpanAfter, RepairTurn, EffectiveCalls, CallIds, Emitted, RunOf;
    if ms == [] {
      assert st.out + [] == st.out;
    } else if ms[0].ToolResult? {
      MendedIs(ms[1..], st.(orphans := st.orphans + 1, changed := true));
    } else if !IsTurn(ms[0]) {
      MendedIs(ms[1..], st.(out := st.out + [ms[0]]));
      assert st.out + [ms[0]] + Mended(ms[1..]) == st.out + ([ms[0]] + Mended(ms[1..]));
    } else {
      var calls := EffectiveCalls(ms[0]);
      var span := SpanAfter(ms[1..], calls, st.seen);
      TurnAccounts(ms[0], ms[1..], st);
      TurnEmits(ms[0], ms[1..], st);
      SkipRun(ms[1..], span.length, st.seen + CallIds(calls));
      assert ms[1..][span.length..] == ms[1 + span.length..];
      MendedIs(ms[1 + span.length..], RepairTurn(ms[0], span, st));
      FourParts(st.out, ms[0], Emitted(calls, span.results), span.remainder, Mended(ms[1 + span.length..]));
    }
  }

  lemma FourParts(out: seq<Message>, turn: Message, a: seq<Message>, b: seq<Message>, c: seq<Message>)
    ensures out + [turn] + a + b + c == out + ([turn] + a + b + c)
  {}

  lemma TurnEmits(turn: Message, ms: seq<Message>, st: Repair)
    requires IsTurn(turn)
    requires var calls := EffectiveCalls(turn); |CallIds(calls)| == |calls| && CallIds(calls) !! st.seen
    ensures var calls := EffectiveCalls(turn);
      var span := SpanAfter(ms, calls, st.seen);
      span == SpanAfter(ms, calls, {}) &&
      RepairTurn(turn, span, st).out == st.out + [turn] + Emitted(calls, span.results) + span.remainder
  {
    hide ScanSpan, PushCalls, EffectiveCalls, CallIds, Filed, Emitted;
    var calls := EffectiveCalls(turn);
    ScanIgnoresSeen(ms, calls, st.seen, {}, EMPTY_SPAN);
    NamedCalls(turn);
    PushDistinct(calls, SpanAfter(ms, calls, st.seen).results, Begun(turn, SpanAfter(ms, calls, st.seen), st));
  }

  // ----------------------------------------------------------- names stay as they are

  lemma NamedTwice(m: Message, fallback: Option<string>)
    requires m.ToolResult?
    ensures NormalizeToolResultName(NormalizeToolResultName(m, fallback), fallback) ==
      NormalizeToolResultName(m, fallback)
  {
    hide Trim;
    if m.toolName.Some? {
      TrimIdempotent(m.toolName.value);
    }
    if fallback.Some? {
      TrimIdempotent(fallback.value);
    }
    UnknownIsTrimmed();
  }

  lemma UnknownIsTrimmed()
    ensures Trim("unknown") == "unknown"
  {
    hide Trim;
    assert "unknown"[0] == 'u' && "unknown"[6] == 'n' && |"unknown"| == 7;
    TrimFixed("unknown");
  }

  lemma MissingNamed(c: ToolCall)
    ensures NormalizeToolResultName(MakeMissingToolResult(c), c.name) == MakeMissingToolResult(c) <==> CleanName(c)
  {
    hide Trim;
    UnknownIsTrimmed();
    BlankTrimmed();
  }

  lemma BlankTrimmed()
    ensures Trim("") == "" && "unknown" != ""
  {}

  lemma {:induction false} NameOfCall(calls: seq<ToolCall>, c: ToolCall)
    requires |CallIds(calls)| == |calls| && c in calls
    ensures NameById(calls, c.id) == c.name
    decreases |calls|
  {
    var front, last := calls[..|calls| - 1], calls[|calls| - 1];
    assert calls == front + [last];
    IdCount(front);
    assert CallIds(calls) == CallIds(front) + {last.id};
    if last.id == c.id {
      assert c in front ==> c.id in CallIds(front);
    } else {
      NameOfCall(front, c);
    }
  }

  /** The results a pass files are named already. */
  ghost predicate Named(results: map<string, Message>, calls: seq<ToolCall>) {
    Filed(results) &&
    forall id :: id in results ==> NormalizeToolResultName(results[id], NameById(calls, id)) == results[id]
  }

  lemma StepNamed(next: Message, calls: seq<ToolCall>, seen: set<string>, s: Span)
    requires Named(s.results, calls)
    ensures Named(SpanStep(next, calls, seen, s).results, calls)
  {
    hide NormalizeToolResultName, NameById, CallIds;
    if next.ToolResult? && ResultId(next).Some? {
      NamedTwice(next, NameById(calls, ResultId(next).value));
    }
  }

  lemma {:induction false} ScanNamed(ms: seq<Message>, calls: seq<ToolCall>, seen: set<string>, s: Span)
    requires Named(s.results, calls)
    ensures Named(ScanSpan(ms, calls, seen, s).results, calls)
    decreases |ms|
  {
    hide SpanStep, Named;
    if ms == [] || ms[0].Assistant? {
    } else {
      StepNamed(ms[0], calls, seen, s);
      ScanNamed(ms[1..], calls, seen, SpanStep(ms[0], calls, seen, s));
    }
  }

  // -------------------------------------------------------------- the second pass

  function ResultOf(c: ToolCall, results: map<string, Message>): Message {
    if c.id in results then results[c.id] else MakeMissingToolResult(c)
  }

  function Renamed(c: ToolCall, results: map<string, Message>, all: seq<ToolCall>): Message
    requires ResultOf(c, results).ToolResult?
  {
    NormalizeToolResultName(ResultOf(c, results), NameById(all, c.id))
  }

  lemma EmittedFiled(calls: seq<ToolCall>, results: map<string, Message>)
    requires Filed(results) && forall c :: c in calls ==> c.id != ""
    ensures forall c :: c in calls ==> ResultOf(c, results).ToolResult? && ResultId(ResultOf(c, results)) == Some(c.id)
  {}

  /** Each of the calls' results is filed under its id again, renamed, beside what was filed before. */
  ghost predicate Refiled(calls: seq<ToolCall>, all: seq<ToolCall>, results: map<string, Message>,
      before: map<string, Message>, after: map<string, Message>)
  {
    after.Keys == before.Keys + CallIds(calls) &&
    (forall id :: id in before ==> after[id] == before[id]) &&
    forall c :: c in calls ==> ResultOf(c, results).ToolResult? && after[c.id] == Renamed(c, results, all)
  }

  ghost predicate AnyRenamed(calls: seq<ToolCall>, all: seq<ToolCall>, results: map<string, Message>) {
    exists c :: c in calls && ResultOf(c, results).ToolResult? && Renamed(c, results, all) != ResultOf(c, results)
  }

  /** The second pass over the results of `calls`. */
  ghost predicate Passed(calls: seq<ToolCall>, all: seq<ToolCall>, results: map<string, Message>, s: Span, next: Span) {
    next.remainder == s.remainder && next.length == s.length + |calls| &&
    Refiled(calls, all, results, s.results, next.results) &&
    (next.changed <==> s.changed || AnyRenamed(calls, all, results))
  }

  lemma PassOne(c: ToolCall, all: seq<ToolCall>, results: map<string, Message>, s: Span)
    requires c.id in CallIds(all) && c.id !in s.results
    requires ResultOf(c, results).ToolResult? && ResultId(ResultOf(c, results)) == Some(c.id)
    ensures Passed([c], all, results, s, SpanStep(ResultOf(c, results), all, {}, s))
  {
    hide NormalizeToolResultName, NameById, ResultId, ResultOf;
    assert CallIds([c]) == {c.id};
    assert c in [c];
  }

  lemma RefiledMore(calls: seq<ToolCall>, all: seq<ToolCall>, results: map<string, Message>, a: map<string, Message>,
      b: map<string, Message>, c: map<string, Message>)
    requires calls != [] && calls[0].id !in CallIds(calls[1..])
    requires Refiled([calls[0]], all, results, a, b) && Refiled(calls[1..], all, results, b, c)
    ensures Refiled(calls, all, results, a, c)
  {
    hide Renamed, ResultOf, CallIds;
    var first := calls[0];
    CallIdsCons(calls);
    CallIdsCons([first]);
    NoIds();
    assert [first][1..] == [] && first in [first] && first.id in b;
    assert forall x :: x in calls <==> x == first || x in calls[1..];
  }

  lemma AnyMore(calls: seq<ToolCall>, all: seq<ToolCall>, results: map<string, Message>)
    requires calls != []
    ensures AnyRenamed(calls, all, results) <==>
      AnyRenamed([calls[0]], all, results) || AnyRenamed(calls[1..], all, results)
  {
    hide NormalizeToolResultName, NameById, ResultOf;
    assert forall x :: x in calls <==> x in [calls[0]] || x in calls[1..];
  }

  lemma PassMore(calls: seq<ToolCall>, all: seq<ToolCall>, results: map<string, Message>, s: Span, step: Span,
      next: Span)
    requires calls != [] && calls[0].id !in CallIds(calls[1..])
    requires Passed([calls[0]], all, results, s, step) && Passed(calls[1..], all, results, step, next)
    ensures Passed(calls, all, results, s, next)
  {
    RefiledMore(calls, all, results, s.results, step.results, next.results);
    AnyMore(calls, all, results);
    hide Refiled, AnyRenamed;
  }

  lemma PassNone(all: seq<ToolCall>, results: map<string, Message>, s: Span)
    ensures Passed([], all, results, s, s)
  {
    NoIds();
  }

  lemma EmittedCons(calls: seq<ToolCall>, results: map<string, Message>, tail: seq<Message>)
    requires calls != []
    ensures Emitted(calls, results) + tail == [ResultOf(calls[0], results)] + (Emitted(calls[1..], results) + tail)
  {}

  lemma {:induction false} SecondScan(calls: seq<ToolCall>, all: seq<ToolCall>, results: map<string, Message>,
      tail: seq<Message>, s: Span) returns (next: Span)
    requires Filed(results) && (forall c :: c in calls ==> c.id != "" && c.id in CallIds(all))
    requires |CallIds(calls)| == |calls| && s.results.Keys !! CallIds(calls)
    ensures ScanSpan(Emitted(calls, results) + tail, all, {}, s) == ScanSpan(tail, all, {}, next)
    ensures Passed(calls, all, results, s, next)
    decreases |calls|
  {
    hide CallIds, SpanStep, Passed, Filed, ResultId, ResultOf;
    if calls == [] {
      assert Emitted(calls, results) + tail == tail;
      PassNone(all, results, s);
      next := s;
    } else {
      var c, rest := calls[0], Emitted(calls[1..], results) + tail;
      EmittedFiled(calls, results);
      CallIdsCons(calls);
      DistinctTail(calls);
      EmittedCons(calls, results, tail);
      assert c in calls;
      assert ([ResultOf(c, results)] + rest)[1..] == rest;
      var step := SpanStep(ResultOf(c, results), all, {}, s);
      PassOne(c, all, results, s);
      PassedKeys([c], all, results, s, step);
      assert CallIds([c]) == {c.id} by { CallIdsCons([c]); NoIds(); assert [c][1..] == []; }
      next := SecondScan(calls[1..], all, results, tail, step);
      PassMore(calls, all, results, s, step, next);
    }
  }

  lemma PassedKeys(calls: seq<ToolCall>, all: seq<ToolCall>, results: map<string, Message>, s: Span, next: Span)
    requires Passed(calls, all, results, s, next)
    ensures next.results.Keys == s.results.Keys + CallIds(calls)
  {}

  lemma {:induction false} ScanOthers(others: seq<Message>, tail: seq<Message>, calls: seq<ToolCall>, s: Span)
    requires (forall m :: m in others ==> m.Other?) && (tail == [] || tail[0].Assistant?)
    ensures ScanSpan(others + tail, calls, {}, s) ==
      s.(remainder := s.remainder + others, length := s.length + |others|)
    decreases |others|
  {
    if others == [] {
      assert others + tail == tail && s.remainder + [] == s.remainder;
    } else {
      assert others[0] in others && (others + tail)[1..] == others[1..] + tail;
      var step := s.(remainder := s.remainder + [others[0]], length := s.length + 1);
      ScanOthers(others[1..], tail, calls, step);
      assert s.remainder + [others[0]] + others[1..] == s.remainder + others;
    }
  }

  /** What the calls emit agrees with other results exactly when each call's result does. */
  lemma {:induction false} EmittedAgree(calls: seq<ToolCall>, a: map<string, Message>, b: map<string, Message>)
    ensures Emitted(calls, a) == Emitted(calls, b) <==> forall c :: c in calls ==> ResultOf(c, a) == ResultOf(c, b)
    decreases |calls|
  {
    if calls == [] {
    } else {
      EmittedAgree(calls[1..], a, b);
      assert Emitted(calls, a)[0] == ResultOf(calls[0], a) && Emitted(calls, b)[0] == ResultOf(calls[0], b);
      assert Emitted(calls, a)[1..] == Emitted(calls[1..], a) && Emitted(calls, b)[1..] == Emitted(calls[1..], b);
      assert forall c :: c in calls <==> c == calls[0] || c in calls[1..];
    }
  }

  /** A second pass over a mended turn, and when it leaves the turn's results alone. */
  lemma SecondTurn(turn: Message, results: map<string, Message>, others: seq<Message>, tail: seq<Message>)
    requires IsTurn(turn) && (forall m :: m in others ==> m.Other?) && (tail == [] || tail[0].Assistant?)
    requires var calls := EffectiveCalls(turn); |CallIds(calls)| == |calls| && Named(results, calls)
    ensures var calls := EffectiveCalls(turn);
      var span := SpanAfter(Emitted(calls, results) + others + tail, calls, {});
      span.remainder == others && span.length == |calls| + |others| &&
      (Emitted(calls, span.results) == Emitted(calls, results) <==>
        forall c :: c in calls && c.id !in results ==> CleanName(c)) &&
      (span.changed <==> exists c :: c in calls && c.id !in results && !CleanName(c))
  {
    hide ScanSpan, EffectiveCalls, CallIds, NormalizeToolResultName, NameById, Emitted, CleanName, Filed;
    var calls := EffectiveCalls(turn);
    var after := others + tail;
    assert Emitted(calls, results) + others + tail == Emitted(calls, results) + after;
    NamedCalls(turn);
    forall c | c in calls ensures c.id in CallIds(calls) { IdOfCall(calls, c); }
    var next := SecondScan(calls, calls, results, after, EMPTY_SPAN);
    ScanOthers(others, tail, calls, next);
    assert [] + others == others;
    EmittedAgree(calls, next.results, results);
    forall c | c in calls
      ensures ResultOf(c, next.results) == ResultOf(c, results) <==> (c.id !in results ==> CleanName(c))
    {
      NameOfCall(calls, c);
      IdOfCall(calls, c);
      MissingNamed(c);
    }
  }

  // ----------------------------------------------------------------- whole repairs

  lemma MendedHead(ms: seq<Message>)
    requires ms == [] || ms[0].Assistant?
    ensures Mended(ms) == [] || Mended(ms)[0].Assistant?
  {
    hide SpanAfter, EffectiveCalls, Emitted;
  }

  lemma TurnMended(ms: seq<Message>)
    requires ms != [] && IsTurn(ms[0])
    ensures var calls := EffectiveCalls(ms[0]);
      var span := SpanAfter(ms[1..], calls, {});
      span.length == SpanLength(ms[1..]) && Named(span.results, calls) &&
      (forall m :: m in span.remainder ==> m.Other?) &&
      (forall c :: c in calls ==> (c.id in span.results <==> c.id in ResultIds(RunOf(ms[1..]))))
  {
    hide ScanSpan, EffectiveCalls, CallIds, RunOf, ResultIds, NonTool, Usable, NormalizeToolResultName;
    var calls := EffectiveCalls(ms[0]);
    ScanAccounts(ms[1..], calls, {}, EMPTY_SPAN);
    ScanNamed(ms[1..], calls, {}, EMPTY_SPAN);
    SpanNonTool(ms[1..], calls, {});
    forall c | c in calls ensures c.id in CallIds(calls) { IdOfCall(calls, c); }
  }

  lemma {:induction false} SkipRunClean(ms: seq<Message>, k: nat)
    requires k <= SpanLength(ms)
    ensures CleanUnanswered(ms) <==> CleanUnanswered(ms[k..])
    decreases k
  {
    hide EffectiveCalls, ResultIds, RunOf, CleanName;
    if k == 0 {
      assert ms[0..] == ms;
    } else {
      SkipRunClean(ms[1..], k - 1);
      assert ms[1..][k - 1..] == ms[k..];
    }
  }

  lemma SameFront(a: seq<Message>, b: seq<Message>, x: seq<Message>, y: seq<Message>)
    requires |a| == |b|
    ensures a + x == b + y <==> a == b && x == y
  {
    assert (a + x)[..|a|] == a && (b + y)[..|b|] == b && (a + x)[|a|..] == x && (b + y)[|b|..] == y;
  }

  /** Mending twice is mending once exactly when the unanswered calls have clean names. */
  lemma {:induction false} MendedTwice(ms: seq<Message>, used: set<string>)
    requires DistinctCalls(ms, used)
    ensures Mended(Mended(ms)) == Mended(ms) <==> CleanUnanswered(ms)
    decreases |ms|
  {
    hide SpanAfter, EffectiveCalls, CallIds, Emitted, RunOf, ResultIds, CleanName, Named;
    if ms == [] {
    } else if ms[0].ToolResult? {
      MendedTwice(ms[1..], used);
    } else if !IsTurn(ms[0]) {
      MendedTwice(ms[1..], used);
      var rest := Mended(ms[1..]);
      assert ([ms[0]] + rest)[1..] == rest;
      SameFront([ms[0]], [ms[0]], Mended(rest), rest);
    } else {
      var calls := EffectiveCalls(ms[0]);
      var span := SpanAfter(ms[1..], calls, {});
      var after := ms[1 + span.length..];
      TurnMended(ms);
      SkipRun(ms[1..], span.length, used + CallIds(calls));
      SkipRunClean(ms[1..], span.length);
      assert ms[1..][span.length..] == after;
      MendedTwice(after, used + CallIds(calls));
      MendedHead(after);
      TurnTwice(ms[0], span.results, span.remainder, Mended(after));
    }
  }

  lemma TurnLayout(turn: Message, a: seq<Message>, b: seq<Message>, tail: seq<Message>)
    ensures var ms := [turn] + a + b + tail;
      ms[0] == turn && ms[1..] == a + b + tail && ms[1 + |a| + |b|..] == tail
  {}

  lemma FrontAgree(turn: Message, a: seq<Message>, b: seq<Message>, others: seq<Message>, x: seq<Message>,
      y: seq<Message>)
    requires |a| == |b|
    ensures [turn] + a + others + x == [turn] + b + others + y <==> a == b && x == y
  {
    SameFront([turn] + a + others, [turn] + b + others, x, y);
    assert ([turn] + a + others)[1..|a| + 1] == a && ([turn] + b + others)[1..|b| + 1] == b;
  }

  lemma MendedStep(ms: seq<Message>)
    requires ms != [] && IsTurn(ms[0])
    ensures var calls := EffectiveCalls(ms[0]);
      var span := SpanAfter(ms[1..], calls, {});
      Mended(ms) == [ms[0]] + Emitted(calls, span.results) + span.remainder + Mended(ms[1 + span.length..])
  {
    hide SpanAfter, EffectiveCalls, Emitted;
  }

  lemma RepairStep(ms: seq<Message>, st: Repair)
    requires ms != [] && IsTurn(ms[0])
    ensures var span := SpanAfter(ms[1..], EffectiveCalls(ms[0]), st.seen);
      RepairFrom(ms, st) == RepairFrom(ms[1 + span.length..], RepairTurn(ms[0], span, st))
  {
    hide SpanAfter, EffectiveCalls, RepairTurn, Filed, CallIds;
  }

  lemma TurnTwice(turn: Message, results: map<string, Message>, others: seq<Message>, tail: seq<Message>)
    requires IsTurn(turn) && (forall m :: m in others ==> m.Other?) && (tail == [] || tail[0].Assistant?)
    requires var calls := EffectiveCalls(turn); |CallIds(calls)| == |calls| && Named(results, calls)
    ensures var calls := EffectiveCalls(turn);
      var ms := [turn] + Emitted(calls, results) + others + tail;
      Mended(ms) == ms <==>
        (forall c :: c in calls && c.id !in results ==> CleanName(c)) && Mended(tail) == tail
  {
    hide SpanAfter, EffectiveCalls, CallIds, Emitted, CleanName, Named;
    var calls := EffectiveCalls(turn);
    var emitted := Emitted(calls, results);
    var ms := [turn] + emitted + others + tail;
    SecondTurn(turn, results, others, tail);
    var span := SpanAfter(emitted + others + tail, calls, {});
    TurnLayout(turn, emitted, others, tail);
    MendedStep(ms);
    hide Mended;
    FrontAgree(turn, Emitted(calls, span.results), emitted, others, Mended(tail), tail);
  }

  /** A second pass reports a change for every result whose name is not clean. */
  lemma {:induction false} UncleanChanges(ms: seq<Message>, st: Repair)
    requires DistinctCalls(ms, st.seen) && !CleanUnanswered(ms)
    ensures RepairFrom(Mended(ms), st).changed
    decreases |ms|
  {
    hide SpanAfter, EffectiveCalls, CallIds, Emitted, RunOf, ResultIds, CleanName, Named, RepairTurn;
    if ms == [] {
    } else if ms[0].ToolResult? {
      UncleanChanges(ms[1..], st);
    } else if !IsTurn(ms[0]) {
      UncleanChanges(ms[1..], st.(out := st.out + [ms[0]]));
      assert ([ms[0]] + Mended(ms[1..]))[1..] == Mended(ms[1..]);
    } else {
      var calls := EffectiveCalls(ms[0]);
      var span := SpanAfter(ms[1..], calls, {});
      var after := ms[1 + span.length..];
      TurnMended(ms);
      SkipRun(ms[1..], span.length, st.seen + CallIds(calls));
      SkipRunClean(ms[1..], span.length);
      assert ms[1..][span.length..] == after;
      MendedHead(after);
      TurnAgain(ms[0], span.results, span.remainder, Mended(after), st);
      var run := Emitted(calls, span.results) + span.remainder + Mended(after);
      var next := RepairTurn(ms[0], SpanAfter(run, calls, st.seen), st);
      if forall c :: c in calls && c.id !in span.results ==> CleanName(c) {
        UncleanChanges(after, next);
      } else {
        RepairFromChanged(Mended(after), next);
      }
    }
  }

  lemma TurnAgain(turn: Message, results: map<string, Message>, others: seq<Message>, tail: seq<Message>, st: Repair)
    requires IsTurn(turn) && (forall m :: m in others ==> m.Other?) && (tail == [] || tail[0].Assistant?)
    requires var calls := EffectiveCalls(turn);
      |CallIds(calls)| == |calls| && CallIds(calls) !! st.seen && Named(results, calls)
    ensures var calls := EffectiveCalls(turn);
      var ms := [turn] + Emitted(calls, results) + others + tail;
      var next := RepairTurn(turn, SpanAfter(Emitted(calls, results) + others + tail, calls, st.seen), st);
      RepairFrom(ms, st) == RepairFrom(tail, next) && next.seen == st.seen + CallIds(calls) &&
      ((exists c :: c in calls && c.id !in results && !CleanName(c)) ==> next.changed)
  {
    hide ScanSpan, EffectiveCalls, CallIds, Emitted, CleanName, Named, RepairTurn, RunOf, RepairFrom;
    var calls := EffectiveCalls(turn);
    var run := Emitted(calls, results) + others + tail;
    var ms := [turn] + Emitted(calls, results) + others + tail;
    SecondTurn(turn, results, others, tail);
    ScanIgnoresSeen(run, calls, st.seen, {}, EMPTY_SPAN);
    var span := SpanAfter(run, calls, st.seen);
    TurnChanged(turn, span, st);
    TurnAccounts(turn, run, st);
    TurnLayout(turn, Emitted(calls, results), others, tail);
    RepairStep(ms, st);
  }

  /** Repairing a repaired history leaves its messages alone exactly when every call without a result has no name, or
      one that is neither blank nor surrounded by white space. */
  lemma RepairTwiceExactly(ms: seq<Message>)
    requires DistinctCalls(ms, {})
    ensures var once := Repaired(ms).messages;
      Repaired(once).messages == once <==> CleanUnanswered(ms)
  {
    hide RepairFrom, DistinctCalls, Mended, CleanUnanswered;
    var once := Repaired(ms).messages;
    MendedIs(ms, NO_REPAIR);
    assert [] + Mended(ms) == Mended(ms);
    if Repaired(ms).moved {
      NothingIsClean();
      CleanRepair(ms, NO_REPAIR);
      MendedTwice(ms, {});
      MendedIs(once, NO_REPAIR);
      assert [] + Mended(once) == Mended(once);
      if !CleanUnanswered(ms) {
        UncleanChanges(ms, NO_REPAIR);
      }
    } else {
      AddedPerUnanswered(ms, NO_REPAIR);
      QuietRepair(ms, NO_REPAIR);
      AllAnswered(ms);
    }
  }

  /** A call named with a blank in front, and no result: the first repair copies the name, the second trims it. */
  lemma PaddedNameChangesTwice()
    ensures var once := Repaired([Assistant([ToolCall("c", Some(" x"))], false, "t")]).messages;
      Repaired(once).messages != once
  {
    hide Trim;
    var c := ToolCall("c", Some(" x"));
    var ms := [Assistant([c], false, "t")];
    assert [c][1..] == [] && ExtractToolCalls([c]) == [c] && EffectiveCalls(ms[0]) == [c];
    assert CallIds([c]) == {"c"} && ms[1..] == [] && RunOf([]) == [];
    TrimFixed(" x");
    assert !CleanName(c) && c in EffectiveCalls(ms[0]);
    RepairTwiceExactly(ms);
  }

  /** Without unanswered calls there is nothing to name. */
  lemma {:induction false} AllAnswered(ms: seq<Message>)
    requires Unanswered(ms) == 0
    ensures CleanUnanswered(ms)
    decreases |ms|
  {
    hide EffectiveCalls, RunOf, ResultIds, CleanName;
    if ms == [] {
    } else {
      AllAnswered(ms[1..]);
      if IsTurn(ms[0]) {
        var calls, found := EffectiveCalls(ms[0]), ResultIds(RunOf(ms[1..]));
        assert CallIds(calls) - found == {};
        forall c | c in calls ensures c.id in found {
          assert c.id in CallIds(calls) && c.id !in CallIds(calls) - found;
        }
      }
    }
  }
}
