// src/agents/acp-spawn-parent-stream.ts: what each event makes the relay say, and
// that none of the child's text is lost on the way.
module StreamRelayLaws {
  import opened JsText
  import opened StreamRelayModel

  // ------------------------------------------------------------------------ snippets

  function WordEnd(s: string): (n: nat)
    ensures n <= |s| && (forall k :: 0 <= k < n ==> !IsSpace(s[k])) && (n < |s| ==> IsSpace(s[n]))
  {
    if s == "" || IsSpace(s[0]) then 0 else 1 + WordEnd(s[1..])
  }

  /** The runs of characters that are no white space. */
  function Words(s: string): (r: seq<string>)
    ensures forall w :: w in r ==> w != "" && forall k :: 0 <= k < |w| ==> !IsSpace(w[k])
    decreases |s|
  {
    if s == "" then []
    else if IsSpace(s[0]) then Words(s[1..])
    else [s[..WordEnd(s)]] + Words(s[WordEnd(s)..])
  }

  lemma {:induction false} CollapseWord(word: string, rest: string, inRun: bool)
    requires forall k :: 0 <= k < |word| ==> !IsSpace(word[k])
    ensures CollapseSpace(word + rest, inRun) == word + CollapseSpace(rest, if word == "" then inRun else false)
    decreases |word|
  {
    if word == "" {
      assert word + rest == rest;
    } else {
      assert (word + rest)[1..] == word[1..] + rest;
      CollapseWord(word[1..], rest, false);
      assert [word[0]] + (word[1..] + CollapseSpace(rest, false)) == word + CollapseSpace(rest, false);
    }
  }

  lemma WordsStep(s: string)
    requires s != "" && !IsSpace(s[0])
    ensures var n := WordEnd(s);
      n > 0 && s == s[..n] + s[n..] && (n == |s| ==> Words(s) == [s[..n]]) &&
      (n < |s| ==> Words(s) == [s[..n]] + Words(s[n + 1..]) && IsSpace(s[n]))
  {
    var n := WordEnd(s);
    if n < |s| {
      assert s[n..][1..] == s[n + 1..];
    } else {
      assert s[n..] == "" && Words("") == [];
    }
  }

  lemma GapStep(rest: string)
    requires rest != "" && IsSpace(rest[0])
    ensures CollapseSpace(rest, false) == " " + CollapseSpace(rest[1..], true)
  {}

  /** Collapsing inside a gap leaves the words with single blanks between them, and perhaps one behind them. */
  lemma {:induction false} CollapseIsWords(s: string)
    ensures var joined, r := Join(Words(s), " "), CollapseSpace(s, true);
      (r == joined || r == joined + " ") && (Words(s) == [] ==> r == "")
    decreases |s|
  {
    if s == "" {
    } else if IsSpace(s[0]) {
      CollapseIsWords(s[1..]);
    } else {
      WordsStep(s);
      var n := WordEnd(s);
      CollapseWord(s[..n], s[n..], true);
      if n < |s| {
        GapStep(s[n..]);
        assert s[n..][1..] == s[n + 1..];
        CollapseIsWords(s[n + 1..]);
        WordsJoin(s[..n], Words(s[n + 1..]));
        WordBefore(s[..n], Join(Words(s[n + 1..]), " "), CollapseSpace(s[n + 1..], true));
        hide Words, Join, CollapseSpace;
      } else {
        WordsJoin(s[..n], []);
        assert s[..n] == s;
      }
    }
  }

  lemma WordBefore(word: string, joined: string, r: string)
    ensures r == joined ==> word + (" " + r) == word + " " + joined
    ensures r == joined + " " ==> word + (" " + r) == word + " " + joined + " "
    ensures r == "" ==> word + (" " + r) == word + " "
  {}

  lemma WordsJoin(word: string, words: seq<string>)
    ensures Join([word] + words, " ") == if words == [] then word else word + " " + Join(words, " ")
  {
    assert ([word] + words)[1..] == words;
  }

  lemma {:induction false} JoinedWordsTrimmed(words: seq<string>)
    requires forall w :: w in words ==> w != "" && !IsSpace(w[0]) && !IsSpace(w[|w| - 1])
    ensures Trimmed(Join(words, " "))
    ensures words != [] ==> Join(words, " ") != "" && Join(words, " ")[0] == words[0][0]
    decreases |words|
  {
    if |words| == 0 {
    } else {
      assert words[0] in words;
      if |words| > 1 {
        assert words[1] in words && words[1..][0] == words[1];
        JoinedWordsTrimmed(words[1..]);
        var joined, rest := Join(words, " "), Join(words[1..], " ");
        assert joined[|joined| - 1] == rest[|rest| - 1];
      }
    }
  }

  lemma TrimGap(s: string)
    requires Trimmed(s)
    ensures Trim(s) == s && Trim(s + " ") == s && Trim(" " + s) == s && Trim(" " + s + " ") == s
  {
    assert IsSpace(' ');
    TrimFixed(s);
    assert (s + " ")[..|s|] == s && (" " + s)[1..] == s && (" " + s + " ")[..|s| + 1] == " " + s;
    if s == "" {
      assert TrimEnd(" ") == "" by { assert " "[..0] == ""; }
      assert " " + s == " " && s + " " == " " && " " + s + " " == "  ";
      assert "  "[..1] == " ";
    } else {
      assert TrimEnd(s) == s && TrimEnd(" " + s) == " " + s;
    }
  }

  lemma CollapseShape(s: string)
    ensures var joined, r := Join(Words(s), " "), CollapseSpace(s, false);
      r == joined || r == joined + " " || r == " " + joined || r == " " + joined + " "
  {
    hide Words, Join;
    CollapseIsWords(s);
    if s != "" && IsSpace(s[0]) {
      var joined := Join(Words(s), " ");
      assert " " + (joined + " ") == " " + joined + " ";
    }
  }

  /** A compacted text is its words with single blanks between them. */
  lemma CompactExactly(s: string)
    ensures CompactWhitespace(s) == Join(Words(s), " ")
  {
    hide Trim, Trimmed, Words, Join, CollapseSpace;
    CollapseShape(s);
    JoinedWordsTrimmed(Words(s));
    TrimGap(Join(Words(s), " "));
  }

  /** A snippet is the compacted text, cut to 220 characters with an ellipsis for the last; blank text gives none. */
  lemma SnippetExactly(text: string)
    ensures var words := Join(Words(text), " ");
      Snippet(text) ==
        if Words(text) == [] then []
        else [Progress(if |words| <= 220 then words else words[..219] + "\U{2026}")]
  {
    CompactExactly(text);
    JoinedWordsTrimmed(Words(text));
    hide CompactWhitespace, Words, Join;
  }

  /** A delta has no words exactly when it is blank. */
  lemma {:induction false} BlankExactly(s: string)
    ensures Trim(s) == "" <==> Words(s) == []
    ensures Words(s) == [] <==> forall k :: 0 <= k < |s| ==> IsSpace(s[k])
  {
    NoWords(s);
    if forall k :: 0 <= k < |s| ==> IsSpace(s[k]) {
      BlankTrims(s);
    } else {
      SomethingStays(s);
    }
  }

  lemma {:induction false} NoWords(s: string)
    ensures Words(s) == [] <==> forall k :: 0 <= k < |s| ==> IsSpace(s[k])
    decreases |s|
  {
    if s != "" && IsSpace(s[0]) {
      NoWords(s[1..]);
      assert forall k :: 1 <= k < |s| ==> s[k] == s[1..][k - 1];
      assert forall k :: 0 <= k < |s| - 1 ==> s[1..][k] == s[k + 1];
    }
  }

  lemma {:induction false} BlankTrims(s: string)
    requires forall k :: 0 <= k < |s| ==> IsSpace(s[k])
    ensures TrimEnd(s) == ""
    decreases |s|
  {
    if s != "" {
      BlankTrims(s[..|s| - 1]);
    }
  }

  lemma {:induction false} SomethingStays(s: string)
    requires exists k :: 0 <= k < |s| && !IsSpace(s[k])
    ensures Trim(s) != ""
    decreases |s|
  {
    var k :| 0 <= k < |s| && !IsSpace(s[k]);
    if IsSpace(s[|s| - 1]) {
      assert s[..|s| - 1][k] == s[k];
      SomethingStays(s[..|s| - 1]);
    } else {
      assert TrimEnd(s) == s;
      StartStays(s);
    }
  }

  lemma {:induction false} StartStays(s: string)
    requires s != "" && !IsSpace(s[|s| - 1])
    ensures TrimStart(s) != ""
    decreases |s|
  {
    if IsSpace(s[0]) {
      StartStays(s[1..]);
    }
  }

  /** A blank line is two line feeds in a row. */
  lemma BlankLineExactly(s: string)
    ensures HasBlankLine(s) <==> exists before, after :: s == before + "\n\n" + after
  {
    if HasBlankLine(s) {
      var i :| 0 <= i < |s| - 1 && s[i] == '\n' && s[i + 1] == '\n';
      assert s == s[..i] + "\n\n" + s[i + 2..];
    }
    if before, after :| s == before + "\n\n" + after {
      assert s[|before|] == '\n' && s[|before| + 1] == '\n';
    }
  }

  // ------------------------------------------------------------------------- events

  /** The buffer with one more delta. */
  function Buffered(r: Relay, delta: string): string {
    var all := r.pendingText + delta;
    if |all| <= 4000 then all else all[|all| - 4000..]
  }

  /** A buffer of 220 characters and a blank line in the delta do not wait for the timer. */
  predicate FlushesAtOnce(r: Relay, delta: string) {
    |Buffered(r, delta)| >= 220 || HasBlankLine(delta)
  }

  predicate Accepts(r: Relay, delta: string) {
    !r.disposed && Words(delta) != []
  }

  /** What an event makes the relay say. */
  function Said(r: Relay, t: Timing, e: Event): seq<Notice> {
    match e
    case NotifyStartedCall => [Started]
    case DisposeCall => []
    case OtherEvent => []
    case FlushTimer => if r.flushArmed then Snippet(r.pendingText) else []
    case WatcherTick(now) =>
      if !r.disposed && !r.stallNotified && t.noOutputNoticeMs > 0 && now >= r.lastProgressAt + t.noOutputNoticeMs
      then [Stall] else []
    case LifetimeTimer => if r.disposed then [] else [TimedOut]
    case AssistantDelta(delta, _) =>
      if !Accepts(r, delta) then []
      else
        (if r.stallNotified then [Resumed] else []) +
        if FlushesAtOnce(r, delta) then Snippet(Buffered(r, delta)) else []
    case LifecycleEnd => if r.disposed then [] else Snippet(r.pendingText) + [Done]
    case LifecycleError => if r.disposed then [] else Snippet(r.pendingText) + [Failed]
  }

  /** What is still waiting in the buffer afterwards. */
  function Left(r: Relay, e: Event): string {
    match e
    case AssistantDelta(delta, _) =>
      if !Accepts(r, delta) then r.pendingText else if FlushesAtOnce(r, delta) then "" else Buffered(r, delta)
    case FlushTimer => if r.flushArmed then "" else r.pendingText
    case LifecycleEnd => if r.disposed then r.pendingText else ""
    case LifecycleError => if r.disposed then r.pendingText else ""
    case _ => r.pendingText
  }

  /** Whether the flush timer runs afterwards: text that waits starts it, a flush and the relay's end stop it. */
  predicate Waits(r: Relay, t: Timing, e: Event) {
    match e
    case AssistantDelta(delta, _) =>
      if !Accepts(r, delta) then r.flushArmed else !FlushesAtOnce(r, delta) && (r.flushArmed || t.streamFlushMs > 0)
    case NotifyStartedCall => r.flushArmed
    case WatcherTick(_) => r.flushArmed
    case OtherEvent => r.flushArmed
    case _ => false
  }

  /** The end of the run, the lifetime timer and the caller end the relay; text resets its clock and its stall. */
  lemma StepExactly(r: Relay, t: Timing, e: Event)
    requires (r.lifetimeArmed <==> !r.disposed) && (r.flushArmed ==> !r.disposed)
    ensures var s := Step(r, t, e);
      s.emitted == r.emitted + Said(r, t, e) && s.pendingText == Left(r, e) &&
      s.disposed == (r.disposed || e.DisposeCall? || e.LifecycleEnd? || e.LifecycleError? || e.LifetimeTimer?) &&
      s.lastProgressAt == (if e.AssistantDelta? && Accepts(r, e.delta) then e.now else r.lastProgressAt) &&
      s.stallNotified ==
        ((r.stallNotified && !(e.AssistantDelta? && Accepts(r, e.delta))) || (e.WatcherTick? && Said(r, t, e) != [])) &&
      s.flushArmed == Waits(r, t, e) && (s.lifetimeArmed <==> !s.disposed)
  {
    hide Trim, Snippet, Words, FlushesAtOnce, Buffered, OnDelta;
    assert r.emitted + [] == r.emitted;
    BlankSnippet();
    if e.AssistantDelta? {
      BlankExactly(e.delta);
      if Trim(e.delta) != "" {
        DeltaExactly(r, t, e.delta, e.now);
      } else {
        BlankDelta(r, t, e.delta, e.now);
      }
    }
  }

  lemma BlankSnippet()
    ensures Snippet("") == []
  {
    SnippetExactly("");
  }

  /** A relay begins live, with nothing buffered, its clock set and its lifetime timer running, and says that it has
      started if that is asked for. */
  lemma OpeningExactly(emitStartNotice: bool, now: int)
    ensures var r := Opening(emitStartNotice, now);
      !r.disposed && r.pendingText == "" && r.lastProgressAt == now && !r.stallNotified && !r.flushArmed &&
      r.lifetimeArmed && (emitStartNotice ==> r.emitted == [Started]) && (!emitStartNotice ==> r.emitted == [])
  {}

  lemma BlankDelta(r: Relay, t: Timing, delta: string, now: int)
    requires Trim(delta) == ""
    ensures OnDelta(r, t, delta, now) == r
  {
    hide Trim;
  }

  lemma DeltaExactly(r: Relay, t: Timing, delta: string, now: int)
    requires Trim(delta) != ""
    ensures var s := OnDelta(r, t, delta, now);
      s.emitted == r.emitted + ((if r.stallNotified then [Resumed] else []) +
        if FlushesAtOnce(r, delta) then Snippet(Buffered(r, delta)) else []) &&
      s.pendingText == (if FlushesAtOnce(r, delta) then "" else Buffered(r, delta)) &&
      s.disposed == r.disposed && s.lastProgressAt == now && !s.stallNotified &&
      s.flushArmed == (!FlushesAtOnce(r, delta) && (r.flushArmed || t.streamFlushMs > 0)) &&
      s.lifetimeArmed == r.lifetimeArmed
  {
    hide Trim, CompactWhitespace, Truncate, HasBlankLine, Snippet;
    var first := if r.stallNotified then [Resumed] else [];
    var more := if FlushesAtOnce(r, delta) then Snippet(Buffered(r, delta)) else [];
    assert r.emitted + first + more == r.emitted + (first + more) && r.emitted + [] == r.emitted;
    assert first + [] == first;
    BlankSnippet();
  }

  // -------------------------------------------------------------- no text is lost

  /** The characters that are no white space. */
  function Bare(s: string): string {
    if s == "" then "" else (if IsSpace(s[0]) then "" else [s[0]]) + Bare(s[1..])
  }

  lemma {:induction false} BareAppend(a: string, b: string)
    ensures Bare(a + b) == Bare(a) + Bare(b)
    decreases |a|
  {
    if a == "" {
      assert a + b == b;
    } else {
      assert (a + b)[1..] == a[1..] + b;
      BareAppend(a[1..], b);
    }
  }

  lemma {:induction false} BareWords(s: string)
    ensures Bare(Join(Words(s), " ")) == Bare(s)
    decreases |s|
  {
    if s == "" {
    } else if IsSpace(s[0]) {
      BareWords(s[1..]);
    } else {
      var n := WordEnd(s);
      var word, rest := s[..n], s[n..];
      assert s == word + rest && n > 0;
      BareWords(rest);
      BareAppend(word, rest);
      WordsJoin(word, Words(rest));
      BareAppend(word + " ", Join(Words(rest), " "));
      BareAppend(word, " ");
      BareBlank();
      hide Join;
      if Words(rest) == [] {
        NoJoin();
      }
    }
  }

  lemma BareBlank()
    ensures Bare(" ") == "" && Bare("") == ""
  {
    assert " "[1..] == "" && IsSpace(' ');
  }

  lemma NoJoin()
    ensures Join([], " ") == ""
  {}

  /** The text of all progress notices. */
  function Shown(trace: seq<Notice>): string {
    if trace == [] then "" else (if trace[0].Progress? then Bare(trace[0].snippet) else "") + Shown(trace[1..])
  }

  lemma {:induction false} ShownAppend(a: seq<Notice>, b: seq<Notice>)
    ensures Shown(a + b) == Shown(a) + Shown(b)
    decreases |a|
  {
    if a == [] {
      assert a + b == b;
    } else {
      assert (a + b)[1..] == a[1..] + b;
      ShownAppend(a[1..], b);
    }
  }

  lemma ShownOne(n: Notice)
    ensures Shown([n]) == if n.Progress? then Bare(n.snippet) else ""
  {
    assert [n][1..] == [];
  }

  /** The text of all deltas that a live relay was given. */
  function Heard(r: Relay, t: Timing, events: seq<Event>): string
    decreases |events|
  {
    if events == [] then ""
    else
      (if events[0].AssistantDelta? && !r.disposed then Bare(events[0].delta) else "") +
        Heard(Step(r, t, events[0]), t, events[1..])
  }

  /** No delta makes the buffer longer than 4000 characters, or a snippet longer than 220. */
  predicate Uncut(r: Relay, t: Timing, events: seq<Event>)
    decreases |events|
  {
    events == [] ||
    ((events[0].AssistantDelta? ==> Fits(r, events[0].delta)) && Uncut(Step(r, t, events[0]), t, events[1..]))
  }

  predicate Fits(r: Relay, delta: string) {
    |r.pendingText + delta| <= 4000 &&
    (FlushesAtOnce(r, delta) ==> |Join(Words(r.pendingText + delta), " ")| <= 220)
  }

  lemma ShownSnippet(text: string)
    requires |Join(Words(text), " ")| <= 220
    ensures Shown(Snippet(text)) == Bare(text)
  {
    SnippetExactly(text);
    BareWords(text);
    hide Join, Words, Snippet, Bare;
    var words := Join(Words(text), " ");
    ShownOne(Progress(words));
    if Words(text) == [] {
      NoJoin();
      BareBlank();
    }
  }

  lemma ShortFits(text: string)
    requires |text| <= 220
    ensures |Join(Words(text), " ")| <= 220
  {
    hide Words, Join;
    CompactExactly(text);
  }

  lemma {:induction false} BareOfBlank(s: string)
    requires Words(s) == []
    ensures Bare(s) == ""
  {
    BareWords(s);
    NoJoin();
    BareBlank();
    hide Words, Join;
  }

  lemma SaidConserves(r: Relay, t: Timing, e: Event)
    requires |r.pendingText| < 220 && (e.AssistantDelta? ==> Fits(r, e.delta))
    ensures Shown(Said(r, t, e)) + Bare(Left(r, e)) ==
      Bare(r.pendingText) + if e.AssistantDelta? && !r.disposed then Bare(e.delta) else ""
  {
    hide Words, Join, Bare, Shown, Snippet, FlushesAtOnce, Buffered, Fits;
    BareBlank();
    NothingShown();
    PendingShown(r);
    match e
    case NotifyStartedCall => ShownOne(Started);
    case FlushTimer =>
    case WatcherTick(_) => ShownOne(Stall);
    case LifetimeTimer => ShownOne(TimedOut);
    case AssistantDelta(delta, now) =>
      if !r.disposed {
        DeltaShown(r, t, delta, now);
      }
    case LifecycleEnd =>
      ShownAppend(Snippet(r.pendingText), [Done]);
      ShownOne(Done);
    case LifecycleError =>
      ShownAppend(Snippet(r.pendingText), [Failed]);
      ShownOne(Failed);
    case _ =>
  }

  /** One event moves text from the delta to the buffer and from there to the notices, and loses none. */
  lemma StepConserves(r: Relay, t: Timing, e: Event)
    requires RelayInv(r, t) && (e.AssistantDelta? ==> Fits(r, e.delta))
    ensures var s := Step(r, t, e);
      Shown(s.emitted) + Bare(s.pendingText) ==
        Shown(r.emitted) + Bare(r.pendingText) + if e.AssistantDelta? && !r.disposed then Bare(e.delta) else ""
  {
    hide Step, Said, Left, Bare, Shown, EndsOnce, Alternates, StallOpen, Fits;
    StepExactly(r, t, e);
    SaidConserves(r, t, e);
    ShownAppend(r.emitted, Said(r, t, e));
    var before, said, left := Shown(r.emitted), Shown(Said(r, t, e)), Bare(Left(r, e));
    var heard := if e.AssistantDelta? && !r.disposed then Bare(e.delta) else "";
    assert before + said + left == before + (said + left);
    assert before + Bare(r.pendingText) + heard == before + (Bare(r.pendingText) + heard);
  }

  lemma NothingShown()
    ensures Shown([]) == ""
  {}

  lemma PendingShown(r: Relay)
    requires |r.pendingText| < 220
    ensures Shown(Snippet(r.pendingText)) == Bare(r.pendingText)
  {
    ShortFits(r.pendingText);
    ShownSnippet(r.pendingText);
  }

  lemma DeltaShown(r: Relay, t: Timing, delta: string, now: int)
    requires Fits(r, delta) && !r.disposed
    ensures Shown(Said(r, t, AssistantDelta(delta, now))) + Bare(Left(r, AssistantDelta(delta, now))) ==
      Bare(r.pendingText) + Bare(delta)
  {
    hide Words, Join, Bare, Shown, Snippet, HasBlankLine;
    BareAppend(r.pendingText, delta);
    BareBlank();
    NothingShown();
    var first := if r.stallNotified then [Resumed] else [];
    ShownOne(Resumed);
    var more := if FlushesAtOnce(r, delta) then Snippet(Buffered(r, delta)) else [];
    ShownAppend(first, more);
    if Words(delta) == [] {
      BareOfBlank(delta);
    } else if FlushesAtOnce(r, delta) {
      ShownSnippet(r.pendingText + delta);
    }
  }

  /** As long as nothing has to be cut, the notices of any run and what is still buffered hold the text of all deltas,
      white space aside, in order and exactly once, whatever timers and events come in between. */
  lemma {:induction false} TextIsConserved(r: Relay, t: Timing, events: seq<Event>)
    requires RelayInv(r, t) && Uncut(r, t, events)
    ensures var s := RunFrom(r, t, events);
      Shown(s.emitted) + Bare(s.pendingText) == Shown(r.emitted) + Bare(r.pendingText) + Heard(r, t, events)
    decreases |events|
  {
    hide Step, Fits, RelayInv, Shown, Bare;
    if events == [] {
    } else {
      StepConserves(r, t, events[0]);
      StepKeeps(r, t, events[0]);
      TextIsConserved(Step(r, t, events[0]), t, events[1..]);
    }
  }
}
