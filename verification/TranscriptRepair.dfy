// src/agents/session-transcript-repair.ts: re-pairing tool calls and tool results.
module TranscriptRepair {
  import opened JsText

  datatype ToolCall = ToolCall(id: string, name: Option<string>)

  /** A transcript message: an assistant turn (`failed` when it was aborted or errored), a tool result, or anything
      else. */
  datatype Message =
    | Other(body: string)
    | Assistant(calls: seq<ToolCall>, failed: bool, body: string)
    | ToolResult(id: Option<string>, toolName: Option<string>, body: string)

  const MISSING_RESULT_TEXT :=
    "[foxclaw] missing tool result in session history; inserted synthetic error result for transcript repair."

  function ExtractToolCalls(calls: seq<ToolCall>): seq<ToolCall> {
    if calls == [] then []
    else (if calls[0].id == "" then [] else [calls[0]]) + ExtractToolCalls(calls[1..])
  }

  /** The calls of an assistant turn that results are expected for. */
  function EffectiveCalls(m: Message): seq<ToolCall>
    requires m.Assistant?
  {
    if m.failed then [] else ExtractToolCalls(m.calls)
  }

  function CallIds(calls: seq<ToolCall>): set<string> {
    set c | c in calls :: c.id
  }

  function ResultId(m: Message): Option<string>
    requires m.ToolResult?
  {
    if m.id == Some("") then None else m.id
  }

  /** The name of the last call with the id. */
  function NameById(calls: seq<ToolCall>, id: string): Option<string> {
    if calls == [] then None
    else if calls[|calls| - 1].id == id then calls[|calls| - 1].name
    else NameById(calls[..|calls| - 1], id)
  }

  function TrimNonEmpty(value: Option<string>): Option<string> {
    if value.None? || Trim(value.value) == "" then None else Some(Trim(value.value))
  }

  function NormalizeToolResultName(m: Message, fallback: Option<string>): (r: Message)
    requires m.ToolResult?
    ensures r.ToolResult? && r.id == m.id && r.body == m.body
  {
    if TrimNonEmpty(m.toolName).Some? then m.(toolName := TrimNonEmpty(m.toolName))
    else if TrimNonEmpty(fallback).Some? then m.(toolName := TrimNonEmpty(fallback))
    else if m.toolName.Some? then m.(toolName := Some("unknown"))
    else m
  }

  function MakeMissingToolResult(call: ToolCall): Message {
    ToolResult(Some(call.id), Some(if call.name.Some? then call.name.value else "unknown"), MISSING_RESULT_TEXT)
  }

  // ------------------------------------------------------------ what the loops do

  /** The run of messages after an assistant turn, up to the next one. */
  datatype Span = Span(results: map<string, Message>, remainder: seq<Message>, duplicates: nat, orphans: nat,
    changed: bool, length: nat)

  const EMPTY_SPAN := Span(map[], [], 0, 0, false, 0)

  function SpanStep(next: Message, calls: seq<ToolCall>, seen: set<string>, s: Span): Span {
    if !next.ToolResult? then s.(remainder := s.remainder + [next], length := s.length + 1)
    else if ResultId(next).None? || ResultId(next).value !in CallIds(calls) then
      s.(orphans := s.orphans + 1, changed := true, length := s.length + 1)
    else
      var id := ResultId(next).value;
      if id in seen then s.(duplicates := s.duplicates + 1, changed := true, length := s.length + 1) else
      var named := NormalizeToolResultName(next, NameById(calls, id));
      s.(results := if id in s.results then s.results else s.results[id := named],
         changed := s.changed || named != next, length := s.length + 1)
  }

  function ScanSpan(ms: seq<Message>, calls: seq<ToolCall>, seen: set<string>, s: Span): (r: Span)
    ensures s.length <= r.length <= s.length + |ms|
  {
    if ms == [] || ms[0].Assistant? then s else ScanSpan(ms[1..], calls, seen, SpanStep(ms[0], calls, seen, s))
  }

  /** The repair in progress; `changed` also covers results that were moved. */
  datatype Repair = Repair(out: seq<Message>, added: seq<Message>, seen: set<string>, duplicates: nat, orphans: nat,
    changed: bool)

  const NO_REPAIR := Repair([], [], {}, 0, 0, false)

  function PushToolResult(st: Repair, m: Message): Repair
    requires m.ToolResult?
  {
    var id := ResultId(m);
    if id.Some? && id.value in st.seen then st.(duplicates := st.duplicates + 1, changed := true)
    else st.(out := st.out + [m], seen := if id.Some? then st.seen + {id.value} else st.seen)
  }

  /** Emits the result of every call, a synthetic one where none was found. */
  function PushCalls(calls: seq<ToolCall>, results: map<string, Message>, st: Repair): Repair
    requires Filed(results)
  {
    if calls == [] then st
    else if calls[0].id in results then PushCalls(calls[1..], results, PushToolResult(st, results[calls[0].id]))
    else
      var missing := MakeMissingToolResult(calls[0]);
      PushCalls(calls[1..], results, PushToolResult(st.(added := st.added + [missing], changed := true), missing))
  }

  /** Results are filed under their own id. */
  predicate Filed(results: map<string, Message>) {
    forall id :: id in results ==> results[id].ToolResult? && ResultId(results[id]) == Some(id)
  }

  lemma StepFiled(next: Message, calls: seq<ToolCall>, seen: set<string>, s: Span)
    requires Filed(s.results)
    ensures Filed(SpanStep(next, calls, seen, s).results)
  {}

  lemma {:induction false} SpanFiled(ms: seq<Message>, calls: seq<ToolCall>, seen: set<string>, s: Span)
    requires Filed(s.results)
    ensures Filed(ScanSpan(ms, calls, seen, s).results)
    decreases |ms|
  {
    hide SpanStep, Filed;
    if ms != [] && !ms[0].Assistant? {
      StepFiled(ms[0], calls, seen, s);
      SpanFiled(ms[1..], calls, seen, SpanStep(ms[0], calls, seen, s));
    }
  }

  /** The span after an assistant turn. */
  function SpanAfter(ms: seq<Message>, calls: seq<ToolCall>, seen: set<string>): (r: Span)
    ensures r.length <= |ms| && Filed(r.results)
  {
    assert Filed(EMPTY_SPAN.results);
    SpanFiled(ms, calls, seen, EMPTY_SPAN);
    ScanSpan(ms, calls, seen, EMPTY_SPAN)
  }

  /** The repair once the turn is emitted and its span counted. */
  function Begun(turn: Message, span: Span, st: Repair): Repair {
    var moved := span.results != map[] && span.remainder != [];
    st.(out := st.out + [turn], duplicates := st.duplicates + span.duplicates,
        orphans := st.orphans + span.orphans, changed := st.changed || span.changed || moved)
  }

  /** An assistant turn with calls, together with the span after it. */
  function RepairTurn(turn: Message, span: Span, st: Repair): Repair
    requires turn.Assistant? && Filed(span.results)
  {
    var pushed := PushCalls(EffectiveCalls(turn), span.results, Begun(turn, span, st));
    pushed.(out := pushed.out + span.remainder)
  }

  function RepairFrom(ms: seq<Message>, st: Repair): Repair
    decreases |ms|
  {
    if ms == [] then st
    else if ms[0].ToolResult? then RepairFrom(ms[1..], st.(orphans := st.orphans + 1, changed := true))
    else if ms[0].Other? || EffectiveCalls(ms[0]) == [] then RepairFrom(ms[1..], st.(out := st.out + [ms[0]]))
    else
      var span := SpanAfter(ms[1..], EffectiveCalls(ms[0]), st.seen);
      RepairFrom(ms[1 + span.length..], RepairTurn(ms[0], span, st))
  }

  datatype RepairReport = RepairReport(messages: seq<Message>, added: seq<Message>, droppedDuplicateCount: nat,
    droppedOrphanCount: nat, moved: bool)

  function Repaired(ms: seq<Message>): RepairReport {
    var st := RepairFrom(ms, NO_REPAIR);
    RepairReport(if st.changed then st.out else ms, st.added, st.duplicates, st.orphans, st.changed)
  }

  // ------------------------------------------------------------------- the loops

  method CollectSpan(ms: seq<Message>, start: nat, calls: seq<ToolCall>, seen: set<string>) returns (span: Span)
    requires start <= |ms|
    ensures span == SpanAfter(ms[start..], calls, seen)
  {
    hide NormalizeToolResultName, NameById, ResultId, CallIds;
    span := EMPTY_SPAN;
    var j := start;
    while j < |ms| && !ms[j].Assistant?
      invariant start <= j <= |ms|
      invariant ScanSpan(ms[j..], calls, seen, span) == ScanSpan(ms[start..], calls, seen, EMPTY_SPAN)
    {
      var next := ms[j];
      assert ms[j..][0] == next && ms[j..][1..] == ms[j + 1..];
      ghost var before := span;
      span := span.(length := span.length + 1);
      if next.ToolResult? && ResultId(next).Some? && ResultId(next).value in CallIds(calls) {
        var id := ResultId(next).value;
        if id in seen {
          span := span.(duplicates := span.duplicates + 1, changed := true);
        } else {
          var named := NormalizeToolResultName(next, NameById(calls, id));
          if named != next {
            span := span.(changed := true);
          }
          if id !in span.results {
            span := span.(results := span.results[id := named]);
          }
        }
      } else if !next.ToolResult? {
        span := span.(remainder := span.remainder + [next]);
      } else {
        span := span.(orphans := span.orphans + 1, changed := true);
      }
      assert span == SpanStep(next, calls, seen, before);
      j := j + 1;
    }
  }

  method PushAllCalls(calls: seq<ToolCall>, results: map<string, Message>, start: Repair) returns (st: Repair)
    requires Filed(results)
    ensures st == PushCalls(calls, results, start)
  {
    st := start;
    assert calls[0..] == calls;
    for k := 0 to |calls|
      invariant PushCalls(calls[k..], results, st) == PushCalls(calls, results, start)
    {
      assert calls[k..][0] == calls[k] && calls[k..][1..] == calls[k + 1..];
      if calls[k].id in results {
        st := PushToolResult(st, results[calls[k].id]);
      } else {
        var missing := MakeMissingToolResult(calls[k]);
        st := st.(added := st.added + [missing], changed := true);
        st := PushToolResult(st, missing);
      }
    }
  }

  /** The turn, the results of its calls, and the other messages of its span. */
  method EmitTurn(turn: Message, span: Span, start: Repair) returns (st: Repair)
    requires turn.Assistant? && Filed(span.results)
    ensures st == RepairTurn(turn, span, start)
  {
    hide PushCalls, EffectiveCalls, Filed;
    st := start.(out := start.out + [turn], duplicates := start.duplicates + span.duplicates,
                 orphans := start.orphans + span.orphans,
                 changed := start.changed || span.changed || (span.results != map[] && |span.remainder| > 0));
    st := PushAllCalls(EffectiveCalls(turn), span.results, st);
    st := st.(out := st.out + span.remainder);
  }

  method RepairToolUseResultPairing(messages: seq<Message>) returns (report: RepairReport)
    ensures report == Repaired(messages)
  {
    hide SpanAfter, RepairTurn, EffectiveCalls, Filed;
    var st := NO_REPAIR;
    var i := 0;
    assert messages[0..] == messages;
    while i < |messages|
      invariant i <= |messages|
      invariant RepairFrom(messages[i..], st) == RepairFrom(messages, NO_REPAIR)
    {
      var msg := messages[i];
      assert messages[i..][0] == msg && messages[i..][1..] == messages[i + 1..];
      if !msg.Assistant? {
        if !msg.ToolResult? {
          st := st.(out := st.out + [msg]);
        } else {
          st := st.(orphans := st.orphans + 1, changed := true);
        }
        i := i + 1;
        continue;
      }
      var toolCalls := EffectiveCalls(msg);
      if |toolCalls| == 0 {
        st := st.(out := st.out + [msg]);
        i := i + 1;
        continue;
      }
      var span := CollectSpan(messages, i + 1, toolCalls, st.seen);
      assert messages[i..][1 + span.length..] == messages[i + 1 + span.length..];
      st := EmitTurn(msg, span, st);
      i := i + 1 + span.length;
    }
    report := RepairReport(if st.changed then st.out else messages, st.added, st.duplicates, st.orphans, st.changed);
  }

  // ------------------------------------------------------------------------ laws

  /** The messages other than tool results, in order. */
  function NonTool(ms: seq<Message>): (r: seq<Message>)
    ensures |r| <= |ms|
  {
    if ms == [] then [] else (if ms[0].ToolResult? then [] else [ms[0]]) + NonTool(ms[1..])
  }

  lemma {:induction false} NonToolAppend(a: seq<Message>, b: seq<Message>)
    ensures NonTool(a + b) == NonTool(a) + NonTool(b)
    decreases |a|
  {
    if a == [] {
      assert a + b == b;
    } else {
      assert (a + b)[1..] == a[1..] + b;
      NonToolAppend(a[1..], b);
    }
  }

  lemma NonToolSnoc(a: seq<Message>, m: Message)
    ensures NonTool(a + [m]) == NonTool(a) + if m.ToolResult? then [] else [m]
  {
    NonToolAppend(a, [m]);
  }

  lemma StepRemainder(next: Message, calls: seq<ToolCall>, seen: set<string>, s: Span)
    ensures var r := SpanStep(next, calls, seen, s);
      r.length == s.length + 1 && r.remainder == s.remainder + if next.ToolResult? then [] else [next]
  {
    hide NormalizeToolResultName, NameById, CallIds;
  }

  lemma {:induction false} ScanNonTool(ms: seq<Message>, calls: seq<ToolCall>, seen: set<string>, s: Span)
    requires forall m :: m in s.remainder ==> m.Other?
    ensures var r := ScanSpan(ms, calls, seen, s);
      r.remainder == s.remainder + NonTool(ms[..r.length - s.length]) && forall m :: m in r.remainder ==> m.Other?
    decreases |ms|
  {
    hide SpanStep, NonTool;
    NonToolEmpty();
    if ms == [] || ms[0].Assistant? {
      assert ms[..0] == [];
    } else {
      StepRemainder(ms[0], calls, seen, s);
      ScanNonTool(ms[1..], calls, seen, SpanStep(ms[0], calls, seen, s));
      var n := ScanSpan(ms, calls, seen, s).length - s.length;
      assert ms[..n] == [ms[0]] + ms[1..][..n - 1];
      NonToolAppend([ms[0]], ms[1..][..n - 1]);
      NonToolSnoc([], ms[0]);
      assert [] + [ms[0]] == [ms[0]];
    }
  }

  lemma {:induction false} NonToolOfOthers(ms: seq<Message>)
    requires forall m :: m in ms ==> m.Other?
    ensures NonTool(ms) == ms
    decreases |ms|
  {
    if ms == [] {
    } else {
      NonToolOfOthers(ms[1..]);
      assert ms[0] in ms;
    }
  }

  lemma SpanNonTool(ms: seq<Message>, calls: seq<ToolCall>, seen: set<string>)
    ensures var r := SpanAfter(ms, calls, seen);
      r.remainder == NonTool(ms[..r.length]) && NonTool(r.remainder) == r.remainder && forall m :: m in r.remainder ==>
        m.Other?
  {
    hide ScanSpan, NonTool;
    ScanNonTool(ms, calls, seen, EMPTY_SPAN);
    NonToolOfOthers(SpanAfter(ms, calls, seen).remainder);
  }

  lemma {:induction false} PushCallsNonTool(calls: seq<ToolCall>, results: map<string, Message>, st: Repair)
    requires Filed(results)
    ensures NonTool(PushCalls(calls, results, st).out) == NonTool(st.out)
    decreases |calls|
  {
    if calls == [] {
    } else {
      var m := if calls[0].id in results then results[calls[0].id] else MakeMissingToolResult(calls[0]);
      NonToolSnoc(st.out, m);
      PushCallsNonTool(calls[1..], results,
        PushToolResult(if calls[0].id in results then st else st.(added := st.added + [m], changed := true), m));
    }
  }

  lemma {:induction false} RepairFromNonTool(ms: seq<Message>, st: Repair)
    ensures NonTool(RepairFrom(ms, st).out) == NonTool(st.out) + NonTool(ms)
    decreases |ms|
  {
    hide SpanAfter, PushCalls, NonTool, EffectiveCalls, RepairTurn, Filed;
    NonToolEmpty();
    if ms == [] {
    } else {
      NonToolCons(ms);
      NonToolSnoc(st.out, ms[0]);
      if ms[0].ToolResult? {
        RepairFromNonTool(ms[1..], st.(orphans := st.orphans + 1, changed := true));
      } else if ms[0].Other? || EffectiveCalls(ms[0]) == [] {
        RepairFromNonTool(ms[1..], st.(out := st.out + [ms[0]]));
      } else {
        var calls := EffectiveCalls(ms[0]);
        var span := SpanAfter(ms[1..], calls, st.seen);
        SpanNonTool(ms[1..], calls, st.seen);
        TurnNonTool(ms[0], span, st);
        RepairFromNonTool(ms[1 + span.length..], RepairTurn(ms[0], span, st));
        NonToolCut(ms, 1 + span.length);
      }
    }
  }

  lemma NonToolCons(ms: seq<Message>)
    requires ms != []
    ensures NonTool(ms) == if ms[0].ToolResult? then NonTool(ms[1..]) else [ms[0]] + NonTool(ms[1..])
  {
    assert [] + NonTool(ms[1..]) == NonTool(ms[1..]);
  }

  lemma NonToolCut(ms: seq<Message>, k: nat)
    requires 1 <= k <= |ms|
    ensures NonTool(ms[1..]) == NonTool(ms[1..][..k - 1]) + NonTool(ms[k..])
  {
    assert ms[1..] == ms[1..][..k - 1] + ms[k..];
    NonToolAppend(ms[1..][..k - 1], ms[k..]);
  }

  lemma NonToolEmpty()
    ensures NonTool([]) == []
  {}

  lemma TurnNonTool(turn: Message, span: Span, st: Repair)
    requires turn.Assistant? && NonTool(span.remainder) == span.remainder
    requires Filed(span.results)
    ensures NonTool(RepairTurn(turn, span, st).out) == NonTool(st.out) + [turn] + span.remainder
  {
    hide PushCalls, NonTool, EffectiveCalls;
    var begun := Begun(turn, span, st);
    NonToolSnoc(st.out, turn);
    PushCallsNonTool(EffectiveCalls(turn), span.results, begun);
    NonToolAppend(PushCalls(EffectiveCalls(turn), span.results, begun).out, span.remainder);
  }

  /** Repair never loses, adds or reorders anything but tool results. */
  lemma {:induction false} RepairKeepsOthers(ms: seq<Message>)
    ensures NonTool(Repaired(ms).messages) == NonTool(ms)
  {
    hide RepairFrom, NonTool;
    RepairFromNonTool(ms, NO_REPAIR);
    NonToolEmpty();
  }

  /** Every tool result follows, with only tool results in between, an assistant turn that made its call. */
  predicate Paired(open: set<string>, ms: seq<Message>)
    decreases |ms|
  {
    ms == [] ||
    match ms[0]
    case Other(_) => Paired({}, ms[1..])
    case Assistant(_, _, _) => Paired(CallIds(EffectiveCalls(ms[0])), ms[1..])
    case ToolResult(_, _, _) => ResultId(ms[0]).Some? && ResultId(ms[0]).value in open && Paired(open, ms[1..])
  }

  /** The calls still open after the messages. */
  function OpenAfter(open: set<string>, ms: seq<Message>): set<string>
    decreases |ms|
  {
    if ms == [] then open else
    match ms[0]
    case Other(_) => OpenAfter({}, ms[1..])
    case Assistant(_, _, _) => OpenAfter(CallIds(EffectiveCalls(ms[0])), ms[1..])
    case ToolResult(_, _, _) => OpenAfter(open, ms[1..])
  }

  lemma {:induction false} PairedAppend(open: set<string>, a: seq<Message>, b: seq<Message>)
    ensures Paired(open, a + b) <==> Paired(open, a) && Paired(OpenAfter(open, a), b)
    ensures OpenAfter(open, a + b) == OpenAfter(OpenAfter(open, a), b)
    decreases |a|
  {
    hide CallIds, EffectiveCalls, ResultId;
    if a == [] {
      assert a + b == b;
    } else {
      assert (a + b)[1..] == a[1..] + b;
      match a[0]
      case Other(_) => PairedAppend({}, a[1..], b);
      case Assistant(_, _, _) => PairedAppend(CallIds(EffectiveCalls(a[0])), a[1..], b);
      case ToolResult(_, _, _) => PairedAppend(open, a[1..], b);
    }
  }

  lemma {:induction false} OthersPaired(open: set<string>, ms: seq<Message>)
    requires forall m :: m in ms ==> m.Other?
    ensures Paired(open, ms)
    decreases |ms|
  {
    if ms == [] {
    } else {
      OthersPaired({}, ms[1..]);
    }
  }

  lemma PairedSnoc(ms: seq<Message>, m: Message)
    requires Paired({}, ms)
    requires m.ToolResult? ==> ResultId(m).Some? && ResultId(m).value in OpenAfter({}, ms)
    ensures Paired({}, ms + [m])
    ensures m.ToolResult? ==> OpenAfter({}, ms + [m]) == OpenAfter({}, ms)
    ensures m.Assistant? ==> OpenAfter({}, ms + [m]) == CallIds(EffectiveCalls(m))
  {
    hide CallIds, EffectiveCalls, ResultId;
    PairedAppend({}, ms, [m]);
  }

  lemma {:induction false} PushCallsPaired(calls: seq<ToolCall>, results: map<string, Message>, st: Repair)
    requires Filed(results)
    requires Paired({}, st.out) && CallIds(calls) <= OpenAfter({}, st.out) && forall c :: c in calls ==> c.id != ""
    ensures var r := PushCalls(calls, results, st);
      Paired({}, r.out) && OpenAfter({}, r.out) == OpenAfter({}, st.out)
    decreases |calls|
  {
    hide Paired, OpenAfter;
    if calls == [] {
    } else {
      var c := calls[0];
      var m := if c.id in results then results[c.id] else MakeMissingToolResult(c);
      assert c in calls && c.id in CallIds(calls);
      assert ResultId(m) == Some(c.id);
      PairedSnoc(st.out, m);
      var base := if c.id in results then st else st.(added := st.added + [m], changed := true);
      assert CallIds(calls[1..]) <= CallIds(calls);
      PushCallsPaired(calls[1..], results, PushToolResult(base, m));
    }
  }

  lemma {:induction false} ExtractedIds(calls: seq<ToolCall>)
    ensures forall c :: c in ExtractToolCalls(calls) ==> c.id != ""
    decreases |calls|
  {
    if calls == [] {
    } else {
      ExtractedIds(calls[1..]);
    }
  }

  lemma {:induction false} TurnPaired(turn: Message, span: Span, st: Repair)
    requires turn.Assistant? && Paired({}, st.out) && forall m :: m in span.remainder ==> m.Other?
    requires Filed(span.results)
    ensures Paired({}, RepairTurn(turn, span, st).out)
  {
    hide Paired, OpenAfter, PushCalls, CallIds, ExtractToolCalls;
    var begun := Begun(turn, span, st);
    PairedSnoc(st.out, turn);
    ExtractedIds(turn.calls);
    PushCallsPaired(EffectiveCalls(turn), span.results, begun);
    var pushed := PushCalls(EffectiveCalls(turn), span.results, begun);
    OthersPaired(OpenAfter({}, pushed.out), span.remainder);
    PairedAppend({}, pushed.out, span.remainder);
  }

  lemma {:induction false} RepairFromPaired(ms: seq<Message>, st: Repair)
    requires Paired({}, st.out)
    ensures Paired({}, RepairFrom(ms, st).out)
    decreases |ms|
  {
    hide SpanAfter, RepairTurn, Paired, EffectiveCalls;
    if ms == [] {
    } else {
      if ms[0].ToolResult? {
        RepairFromPaired(ms[1..], st.(orphans := st.orphans + 1, changed := true));
      } else if ms[0].Other? || EffectiveCalls(ms[0]) == [] {
        PairedSnoc(st.out, ms[0]);
        RepairFromPaired(ms[1..], st.(out := st.out + [ms[0]]));
      } else {
        var calls := EffectiveCalls(ms[0]);
        var span := SpanAfter(ms[1..], calls, st.seen);
        SpanNonTool(ms[1..], calls, st.seen);
        TurnPaired(ms[0], span, st);
        RepairFromPaired(ms[1 + span.length..], RepairTurn(ms[0], span, st));
      }
    }
  }

  // A repair that reports no change hands back its input, so the input itself was paired.

  lemma {:induction false} PushCallsChanged(calls: seq<ToolCall>, results: map<string, Message>, st: Repair)
    requires Filed(results)
    ensures st.changed ==> PushCalls(calls, results, st).changed
    ensures calls != [] && results == map[] ==> PushCalls(calls, results, st).changed
    decreases |calls|
  {
    if calls == [] {
    } else {
      var c := calls[0];
      var m := if c.id in results then results[c.id] else MakeMissingToolResult(c);
      var base := if c.id in results then st else st.(added := st.added + [m], changed := true);
      PushCallsChanged(calls[1..], results, PushToolResult(base, m));
    }
  }

  lemma {:induction false} RepairFromChanged(ms: seq<Message>, st: Repair)
    requires st.changed
    ensures RepairFrom(ms, st).changed
    decreases |ms|
  {
    hide SpanAfter, EffectiveCalls;
    if ms == [] {
    } else {
      if ms[0].ToolResult? {
        RepairFromChanged(ms[1..], st.(orphans := st.orphans + 1, changed := true));
      } else if ms[0].Other? || EffectiveCalls(ms[0]) == [] {
        RepairFromChanged(ms[1..], st.(out := st.out + [ms[0]]));
      } else {
        var span := SpanAfter(ms[1..], EffectiveCalls(ms[0]), st.seen);
        TurnChanged(ms[0], span, st);
        RepairFromChanged(ms[1 + span.length..], RepairTurn(ms[0], span, st));
      }
    }
  }

  lemma TurnChanged(turn: Message, span: Span, st: Repair)
    requires turn.Assistant? && Filed(span.results)
    ensures st.changed || span.changed || (span.results != map[] && span.remainder != []) ==>
      RepairTurn(turn, span, st).changed
    ensures EffectiveCalls(turn) != [] && span.results == map[] ==> RepairTurn(turn, span, st).changed
  {
    hide PushCalls, EffectiveCalls;
    var begun := Begun(turn, span, st);
    PushCallsChanged(EffectiveCalls(turn), span.results, begun);
  }

  lemma StepUnchanged(next: Message, calls: seq<ToolCall>, seen: set<string>, s: Span)
    requires next.ToolResult? && !SpanStep(next, calls, seen, s).changed
    ensures !s.changed && ResultId(next).Some? && ResultId(next).value in CallIds(calls)
  {
    hide NormalizeToolResultName, NameById, CallIds;
  }

  lemma {:induction false} ScanGrows(ms: seq<Message>, calls: seq<ToolCall>, seen: set<string>, s: Span)
    ensures var r := ScanSpan(ms, calls, seen, s); (s.changed ==> r.changed) && |s.remainder| <= |r.remainder|
    decreases |ms|
  {
    hide NormalizeToolResultName, NameById, CallIds;
    if ms != [] && !ms[0].Assistant? {
      ScanGrows(ms[1..], calls, seen, SpanStep(ms[0], calls, seen, s));
    }
  }

  lemma NothingPaired(open: set<string>)
    ensures Paired(open, []) && OpenAfter(open, []) == open
  {}

  lemma {:induction false} ScanUnchanged(ms: seq<Message>, calls: seq<ToolCall>, seen: set<string>, s: Span)
    requires !ScanSpan(ms, calls, seen, s).changed && ScanSpan(ms, calls, seen, s).remainder == []
    ensures var n := ScanSpan(ms, calls, seen, s).length - s.length;
      Paired(CallIds(calls), ms[..n]) && OpenAfter(CallIds(calls), ms[..n]) == CallIds(calls) &&
        (n < |ms| ==> ms[n].Assistant?)
    decreases |ms|
  {
    hide CallIds, SpanStep, Paired, OpenAfter, ResultId;
    NothingPaired(CallIds(calls));
    if ms != [] && !ms[0].Assistant? {
      var next := SpanStep(ms[0], calls, seen, s);
      ScanGrows(ms[1..], calls, seen, next);
      StepRemainder(ms[0], calls, seen, s);
      StepUnchanged(ms[0], calls, seen, s);
      ScanUnchanged(ms[1..], calls, seen, next);
      var n := ScanSpan(ms, calls, seen, s).length - s.length;
      ResultAhead(CallIds(calls), ms, n);
    }
  }

  /** One more answered result at the front of a run. */
  lemma ResultAhead(open: set<string>, ms: seq<Message>, n: nat)
    requires 1 <= n <= |ms| && ms[0].ToolResult? && ResultId(ms[0]).Some? && ResultId(ms[0]).value in open
    ensures Paired(open, ms[..n]) <==> Paired(open, ms[1..][..n - 1])
    ensures OpenAfter(open, ms[..n]) == OpenAfter(open, ms[1..][..n - 1])
    ensures n < |ms| ==> ms[n] == ms[1..][n - 1]
  {
    hide ResultId;
    assert ms[..n][1..] == ms[1..][..n - 1] && ms[..n][0] == ms[0];
  }

  lemma {:induction false} SpanUnchanged(ms: seq<Message>, calls: seq<ToolCall>, seen: set<string>)
    requires !SpanAfter(ms, calls, seen).changed && SpanAfter(ms, calls, seen).remainder == []
    ensures var n := SpanAfter(ms, calls, seen).length;
      Paired(CallIds(calls), ms[..n]) && OpenAfter(CallIds(calls), ms[..n]) == CallIds(calls) &&
        (n < |ms| ==> ms[n].Assistant?)
  {
    hide ScanSpan, Paired, OpenAfter, CallIds;
    ScanUnchanged(ms, calls, seen, EMPTY_SPAN);
  }

  lemma {:induction false} UnchangedPaired(ms: seq<Message>, st: Repair)
    requires !RepairFrom(ms, st).changed
    ensures Paired({}, ms)
    decreases |ms|
  {
    hide SpanAfter, CallIds, EffectiveCalls, RepairTurn, OpenAfter;
    if ms == [] {
    } else {
      if ms[0].ToolResult? {
        RepairFromChanged(ms[1..], st.(orphans := st.orphans + 1, changed := true));
      } else if ms[0].Other? || EffectiveCalls(ms[0]) == [] {
        UnchangedPaired(ms[1..], st.(out := st.out + [ms[0]]));
        if ms[0].Assistant? {
          NoCallsOpenNothing(ms[0]);
        }
      } else {
        var calls := EffectiveCalls(ms[0]);
        var span := SpanAfter(ms[1..], calls, st.seen);
        var next := RepairTurn(ms[0], span, st);
        if next.changed {
          RepairFromChanged(ms[1 + span.length..], next);
        }
        TurnChanged(ms[0], span, st);
        SpanUnchanged(ms[1..], calls, st.seen);
        var rest := ms[1 + span.length..];
        UnchangedPaired(rest, next);
        assert ms[1..] == ms[1..][..span.length] + rest;
        PairedAppend(CallIds(calls), ms[1..][..span.length], rest);
      }
    }
  }

  lemma NoCallsOpenNothing(m: Message)
    requires m.Assistant? && EffectiveCalls(m) == []
    ensures CallIds(EffectiveCalls(m)) == {}
  {}

  /** After a repair every tool result is answered to a call right before it, whether or not anything had to change. */
  lemma {:induction false} RepairPairs(ms: seq<Message>)
    ensures Paired({}, Repaired(ms).messages)
  {
    hide RepairFrom;
    RepairFromPaired(ms, NO_REPAIR);
    if !RepairFrom(ms, NO_REPAIR).changed {
      UnchangedPaired(ms, NO_REPAIR);
    }
  }
}
