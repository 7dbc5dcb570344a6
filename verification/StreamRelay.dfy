// src/agents/acp-spawn-parent-stream.ts: relaying a child run's output to its
// parent, driven by agent events and timers.
module StreamRelayModel {
  import opened JsText

  const STREAM_BUFFER_MAX_CHARS := 4000
  const STREAM_SNIPPET_MAX_CHARS := 220

  datatype Notice = Started | Progress(snippet: string) | Stall | Resumed | Done | Failed | TimedOut

  /** The limits of one relay. */
  datatype Timing = Timing(streamFlushMs: nat, noOutputNoticeMs: nat)

  /** The relay's variables, which timers are armed, and what it has emitted. */
  datatype Relay = Relay(
    disposed: bool, pendingText: string, lastProgressAt: int, stallNotified: bool, flushArmed: bool,
      lifetimeArmed: bool, emitted: seq<Notice>)

  /** `value.replace(/\s+/g, " ")`; `inRun` says whether the previous character was white space. */
  function CollapseSpace(value: string, inRun: bool): (r: string)
    ensures |r| <= |value|
  {
    if value == "" then ""
    else if IsSpace(value[0]) then (if inRun then "" else " ") + CollapseSpace(value[1..], true)
    else [value[0]] + CollapseSpace(value[1..], false)
  }

  function CompactWhitespace(value: string): string {
    Trim(CollapseSpace(value, false))
  }

  function Truncate(value: string, maxChars: nat): (r: string)
    ensures |r| <= maxChars
    ensures |value| <= maxChars ==> r == value
    ensures maxChars <= 1 ==> r <= value
    ensures 1 < maxChars < |value| ==> |r| == maxChars && r[..maxChars - 1] <= value && r[maxChars - 1] == '\U{2026}'
  {
    if |value| <= maxChars then value
    else if maxChars <= 1 then value[..maxChars]
    else value[..maxChars - 1] + "\U{2026}"
  }

  /** One snippet of the buffered text, if any of it is not white space. */
  function Snippet(text: string): (r: seq<Notice>)
    ensures |r| <= 1 && forall n :: n in r ==> n.Progress? && 0 < |n.snippet| <= STREAM_SNIPPET_MAX_CHARS
  {
    var snippet := Truncate(CompactWhitespace(text), STREAM_SNIPPET_MAX_CHARS);
    if snippet == "" then [] else [Progress(snippet)]
  }

  function Flush(r: Relay): Relay {
    r.(flushArmed := false, pendingText := "", emitted := r.emitted + if r.pendingText ==
      "" then [] else Snippet(r.pendingText))
  }

  function Dispose(r: Relay): Relay {
    if r.disposed then r else r.(disposed := true, flushArmed := false, lifetimeArmed := false)
  }

  predicate HasBlankLine(s: string) {
    exists i :: 0 <= i < |s| - 1 && s[i] == '\n' && s[i + 1] == '\n'
  }

  datatype Event =
    | AssistantDelta(delta: string, now: int)
    | LifecycleEnd
    | LifecycleError
    | OtherEvent
    | FlushTimer
    | WatcherTick(now: int)
    | LifetimeTimer
    | DisposeCall
    | NotifyStartedCall

  function OnDelta(r: Relay, t: Timing, delta: string, now: int): Relay {
    if Trim(delta) == "" then r else
    var resumed := if r.stallNotified then r.(stallNotified := false, emitted := r.emitted + [Resumed]) else r;
    var grown := resumed.(lastProgressAt := now, pendingText := Suffix(r.pendingText + delta, STREAM_BUFFER_MAX_CHARS));
    if |grown.pendingText| >= STREAM_SNIPPET_MAX_CHARS || HasBlankLine(delta) then Flush(grown)
    else if t.streamFlushMs > 0 then grown.(flushArmed := true)
    else grown
  }

  function Step(r: Relay, t: Timing, e: Event): Relay {
    match e
    case NotifyStartedCall => r.(emitted := r.emitted + [Started])
    case DisposeCall => Dispose(r)
    case FlushTimer => if r.flushArmed then Flush(r) else r
    case WatcherTick(now) =>
      if r.disposed || t.noOutputNoticeMs == 0 || r.stallNotified || now - r.lastProgressAt < t.noOutputNoticeMs then r
      else r.(stallNotified := true, emitted := r.emitted + [Stall])
    case LifetimeTimer => if r.disposed || !r.lifetimeArmed then r else Dispose(r.(emitted := r.emitted + [TimedOut]))
    case AssistantDelta(delta, now) => if r.disposed then r else OnDelta(r, t, delta, now)
    case LifecycleEnd => if r.disposed then r
      else var flushed := Flush(r); Dispose(flushed.(emitted := flushed.emitted + [Done]))
    case LifecycleError => if r.disposed then r
      else var flushed := Flush(r); Dispose(flushed.(emitted := flushed.emitted + [Failed]))
    case OtherEvent => r
  }

  function Opening(emitStartNotice: bool, now: int): Relay {
    Relay(false, "", now, false, false, true, if emitStartNotice then [Started] else [])
  }

  // ---------------------------------------------------------------------- the object

  class StreamRelay {
    const timing: Timing
    var disposed: bool
    var pendingText: string
    var lastProgressAt: int
    var stallNotified: bool
    var flushArmed: bool
    var lifetimeArmed: bool
    var emitted: seq<Notice>

    function View(): Relay
      reads this
    {
      Relay(disposed, pendingText, lastProgressAt, stallNotified, flushArmed, lifetimeArmed, emitted)
    }

    constructor (timing: Timing, emitStartNotice: bool, now: int)
      ensures View() == Opening(emitStartNotice, now) && this.timing == timing
    {
      this.timing, disposed, pendingText, lastProgressAt, stallNotified := timing, false, "", now, false;
      flushArmed, lifetimeArmed, emitted := false, true, if emitStartNotice then [Started] else [];
    }

    method FlushPending()
      modifies this
      ensures View() == Flush(old(View()))
    {
      hide CompactWhitespace, Truncate;
      flushArmed := false;
      if pendingText == "" {
        assert emitted + [] == emitted;
        return;
      }
      var snippet := Truncate(CompactWhitespace(pendingText), STREAM_SNIPPET_MAX_CHARS);
      pendingText := "";
      if snippet == "" {
        assert emitted + [] == emitted;
        return;
      }
      emitted := emitted + [Progress(snippet)];
    }

    method DisposeRelay()
      modifies this
      ensures View() == Dispose(old(View()))
    {
      if disposed {
        return;
      }
      disposed, flushArmed, lifetimeArmed := true, false, false;
    }

    method NotifyStarted()
      modifies this
      ensures View() == Step(old(View()), timing, NotifyStartedCall)
    {
      emitted := emitted + [Started];
    }

    method OnFlushTimer()
      modifies this
      ensures View() == Step(old(View()), timing, FlushTimer)
    {
      if flushArmed {
        FlushPending();
      }
    }

    method OnWatcherTick(now: int)
      modifies this
      ensures View() == Step(old(View()), timing, WatcherTick(now))
    {
      if disposed || timing.noOutputNoticeMs == 0 || stallNotified || now - lastProgressAt < timing.noOutputNoticeMs {
        return;
      }
      stallNotified := true;
      emitted := emitted + [Stall];
    }

    method OnLifetimeTimer()
      modifies this
      ensures View() == Step(old(View()), timing, LifetimeTimer)
    {
      if disposed || !lifetimeArmed {
        return;
      }
      emitted := emitted + [TimedOut];
      DisposeRelay();
    }

    method OnAssistantDelta(delta: string, now: int)
      modifies this
      ensures View() == Step(old(View()), timing, AssistantDelta(delta, now))
    {
      hide Trim, Flush;
      if disposed || Trim(delta) == "" {
        return;
      }
      if stallNotified {
        stallNotified := false;
        emitted := emitted + [Resumed];
      }
      lastProgressAt := now;
      pendingText := pendingText + delta;
      if |pendingText| > STREAM_BUFFER_MAX_CHARS {
        pendingText := pendingText[|pendingText| - STREAM_BUFFER_MAX_CHARS..];
      }
      if |pendingText| >= STREAM_SNIPPET_MAX_CHARS || HasBlankLine(delta) {
        FlushPending();
        return;
      }
      if !flushArmed && timing.streamFlushMs > 0 {
        flushArmed := true;
      }
    }

    method OnLifecycleEnd(failed: bool)
      modifies this
      ensures View() == Step(old(View()), timing, if failed then LifecycleError else LifecycleEnd)
    {
      hide Flush;
      if disposed {
        return;
      }
      FlushPending();
      emitted := emitted + [if failed then Failed else Done];
      DisposeRelay();
    }
  }

  // --------------------------------------------------------------------------- traces

  predicate Terminal(n: Notice) {
    n.Done? || n.Failed? || n.TimedOut?
  }

  /** Nothing but a start notice follows a terminal one; so there is at most one terminal notice. */
  ghost predicate EndsOnce(trace: seq<Notice>) {
    forall i, j :: 0 <= i < j < |trace| && Terminal(trace[i]) ==> trace[j].Started?
  }

  /** Whether the last stall notice has not been followed by a resumed notice. */
  function StallOpen(trace: seq<Notice>): bool {
    if trace == [] then false
    else if trace[|trace| - 1].Stall? then true
    else if trace[|trace| - 1].Resumed? then false
    else StallOpen(trace[..|trace| - 1])
  }

  /** Stall and resumed notices take turns, beginning with a stall. */
  ghost predicate Alternates(trace: seq<Notice>) {
    forall k :: 0 <= k < |trace| ==>
      (trace[k].Stall? ==> !StallOpen(trace[..k])) && (trace[k].Resumed? ==> StallOpen(trace[..k]))
  }

  /** What holds between any two events. */
  ghost predicate RelayInv(r: Relay, t: Timing) {
    EndsOnce(r.emitted) && Alternates(r.emitted) && (StallOpen(r.emitted) <==> r.stallNotified) &&
    ((exists n :: n in r.emitted && Terminal(n)) ==> r.disposed) &&
    |r.pendingText| < STREAM_SNIPPET_MAX_CHARS &&
    (t.streamFlushMs > 0 && !r.disposed && r.pendingText != "" ==> r.flushArmed) &&
    (r.flushArmed ==> !r.disposed) && (r.lifetimeArmed <==> !r.disposed)
  }

  lemma EmitKeeps(trace: seq<Notice>, n: Notice)
    requires EndsOnce(trace) && Alternates(trace)
    requires (exists m :: m in trace && Terminal(m)) ==> n.Started?
    requires (n.Stall? ==> !StallOpen(trace)) && (n.Resumed? ==> StallOpen(trace))
    ensures EndsOnce(trace + [n]) && Alternates(trace + [n])
    ensures StallOpen(trace + [n]) == if n.Stall? then true else if n.Resumed? then false else StallOpen(trace)
    ensures (exists m :: m in trace + [n] && Terminal(m)) <==> (exists m :: m in trace && Terminal(m)) || Terminal(n)
  {
    var longer := trace + [n];
    assert longer[..|trace|] == trace;
    forall k | 0 <= k < |longer|
      ensures (longer[k].Stall? ==> !StallOpen(longer[..k])) && (longer[k].Resumed? ==> StallOpen(longer[..k]))
    {
      if k < |trace| {
        assert longer[..k] == trace[..k];
      }
    }
    assert forall i :: 0 <= i < |trace| ==> trace[i] in trace;
    assert n in longer;
    assert forall m :: m in longer <==> m in trace || m == n;
  }

  lemma FlushKeeps(r: Relay, t: Timing)
    requires EndsOnce(r.emitted) && Alternates(r.emitted) && (StallOpen(r.emitted) <==> r.stallNotified) &&
      !r.disposed && r.lifetimeArmed
    requires !exists n :: n in r.emitted && Terminal(n)
    ensures RelayInv(Flush(r), t) && !exists n :: n in Flush(r).emitted && Terminal(n)
  {
    hide EndsOnce, Alternates, CompactWhitespace;
    var more := if r.pendingText == "" then [] else Snippet(r.pendingText);
    if more == [] {
      assert r.emitted + [] == r.emitted;
    } else {
      assert more == [more[0]] && more[0] in more;
      EmitKeeps(r.emitted, more[0]);
    }
  }

  /** Text after a stall is announced before it is buffered. */
  lemma ResumeKeeps(r: Relay, t: Timing)
    requires RelayInv(r, t) && !r.disposed
    ensures var trace := if r.stallNotified then r.emitted + [Resumed] else r.emitted;
      EndsOnce(trace) && Alternates(trace) && !StallOpen(trace) && r.lifetimeArmed && !exists n ::
        n in trace && Terminal(n)
  {
    hide EndsOnce, Alternates, StallOpen;
    if r.stallNotified {
      EmitKeeps(r.emitted, Resumed);
    }
  }

  /** Text that is not flushed at once has a timer waiting for it. */
  lemma BufferKeeps(r: Relay, t: Timing)
    requires EndsOnce(r.emitted) && Alternates(r.emitted) && !StallOpen(r.emitted) && !exists n ::
      n in r.emitted && Terminal(n)
    requires !r.stallNotified && !r.disposed && r.lifetimeArmed && |r.pendingText| < STREAM_SNIPPET_MAX_CHARS
    ensures RelayInv(if t.streamFlushMs > 0 then r.(flushArmed := true) else r, t)
  {
    hide EndsOnce, Alternates, StallOpen, Terminal;
  }

  lemma DeltaKeeps(r: Relay, t: Timing, delta: string, now: int)
    requires RelayInv(r, t) && !r.disposed
    ensures RelayInv(OnDelta(r, t, delta, now), t)
  {
    hide EndsOnce, Alternates, Trim, HasBlankLine, StallOpen, Flush, Suffix, Terminal, RelayInv;
    if Trim(delta) != "" {
      ResumeKeeps(r, t);
      var resumed := if r.stallNotified then r.(stallNotified := false, emitted := r.emitted + [Resumed]) else r;
      var grown := resumed.(lastProgressAt := now,
        pendingText := Suffix(r.pendingText + delta, STREAM_BUFFER_MAX_CHARS));
      FlushKeeps(grown, t);
      if |grown.pendingText| < STREAM_SNIPPET_MAX_CHARS {
        BufferKeeps(grown, t);
      }
    }
  }

  lemma EndKeeps(r: Relay, t: Timing, last: Notice)
    requires RelayInv(r, t) && !r.disposed && Terminal(last)
    ensures var flushed := Flush(r); RelayInv(Dispose(flushed.(emitted := flushed.emitted + [last])), t)
    ensures RelayInv(Dispose(r.(emitted := r.emitted + [last])), t)
  {
    hide EndsOnce, Alternates, Flush, StallOpen;
    FlushKeeps(r, t);
    FlushLeaves(r);
    EmitKeeps(Flush(r).emitted, last);
    EmitKeeps(r.emitted, last);
  }

  lemma FlushLeaves(r: Relay)
    ensures Flush(r).disposed == r.disposed && Flush(r).lifetimeArmed == r.lifetimeArmed &&
      Flush(r).stallNotified == r.stallNotified && Flush(r).pendingText == ""
  {}

  lemma StepKeeps(r: Relay, t: Timing, e: Event)
    requires RelayInv(r, t)
    ensures RelayInv(Step(r, t, e), t)
  {
    hide EndsOnce, Alternates, Flush, StallOpen, OnDelta;
    match e
    case NotifyStartedCall => EmitKeeps(r.emitted, Started);
    case DisposeCall =>
    case FlushTimer =>
      if r.flushArmed {
        FlushKeeps(r, t);
      }
    case WatcherTick(now) =>
      if Step(r, t, e) != r {
        EmitKeeps(r.emitted, Stall);
      }
    case LifetimeTimer =>
      if !r.disposed {
        EndKeeps(r, t, TimedOut);
      }
    case AssistantDelta(delta, now) =>
      if !r.disposed {
        DeltaKeeps(r, t, delta, now);
      }
    case LifecycleEnd =>
      if !r.disposed {
        EndKeeps(r, t, Done);
      }
    case LifecycleError =>
      if !r.disposed {
        EndKeeps(r, t, Failed);
      }
    case OtherEvent =>
  }

  function RunFrom(r: Relay, t: Timing, events: seq<Event>): Relay
    decreases |events|
  {
    if events == [] then r else RunFrom(Step(r, t, events[0]), t, events[1..])
  }

  lemma {:induction false} RunKeeps(r: Relay, t: Timing, events: seq<Event>)
    requires RelayInv(r, t)
    ensures RelayInv(RunFrom(r, t, events), t)
    decreases |events|
  {
    hide RelayInv, Step;
    if events == [] {
    } else {
      StepKeeps(r, t, events[0]);
      RunKeeps(Step(r, t, events[0]), t, events[1..]);
    }
  }

  /** For every interleaving of deltas, lifecycle events, timer firings and calls: at most one terminal notice, only
      start notices after it, strictly alternating stall and resumed notices, and a short buffer that is never left
      without a flush timer. */
  lemma {:induction false} EveryTrace(t: Timing, emitStartNotice: bool, now: int, events: seq<Event>)
    ensures RelayInv(RunFrom(Opening(emitStartNotice, now), t, events), t)
  {
    var start := Opening(emitStartNotice, now);
    assert RelayInv(start, t) by {
      EmitKeeps([], Started);
      assert [] + [Started] == [Started];
    }
    RunKeeps(start, t, events);
  }

  /** A disposed relay never emits anything but start notices again. */
  lemma {:induction false} DisposedIsQuiet(r: Relay, t: Timing, events: seq<Event>)
    requires r.disposed && !r.flushArmed
    ensures var s := RunFrom(r, t, events);
      s.disposed && r.emitted <= s.emitted && forall k :: |r.emitted| <= k < |s.emitted| ==> s.emitted[k].Started?
    decreases |events|
  {
    if events == [] {
    } else {
      DisposedIsQuiet(Step(r, t, events[0]), t, events[1..]);
    }
  }

  /** The end of a run reports what was still buffered, then the end, and nothing else. */
  lemma EndFlushesFirst(r: Relay, t: Timing)
    requires !r.disposed
    ensures Step(r, t, LifecycleEnd).emitted ==
      r.emitted + (if r.pendingText == "" then [] else Snippet(r.pendingText)) + [Done]
    ensures Step(r, t, LifecycleEnd).disposed
  {
    hide Snippet;
  }
}
