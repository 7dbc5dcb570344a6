// src/agents/bootstrap-budget.ts: the history of truncation warnings that were
// shown, its limit of 32 entries, and its way through the session report.
module BootstrapWarnings {
  import opened JsText

  const HISTORY_MAX := 32

  datatype Mode = Off | Once | Always

  datatype Warning = Warning(signature: Option<string>, warningShown: bool, warningSignaturesSeen: seq<string>)

  datatype ReportMeta = ReportMeta(warningMode: Mode, warningShown: bool, promptWarningSignature: Option<string>,
    warningSignaturesSeen: Option<seq<string>>)

  /** The loop over the signatures it has yet to visit. */
  function NormalizeFrom(signatures: seq<string>, result: seq<string>): seq<string>
    decreases |signatures|
  {
    if signatures == [] then result else
    var value := Trim(signatures[0]);
    NormalizeFrom(signatures[1..], if value == "" || value in result then result else result + [value])
  }

  function Normalized(signatures: Option<seq<string>>): seq<string> {
    if signatures.None? then [] else NormalizeFrom(signatures.value, [])
  }

  method NormalizeSeenSignatures(signatures: Option<seq<string>>) returns (result: seq<string>)
    ensures result == Normalized(signatures)
  {
    hide Trim;
    result := [];
    if signatures.None? || |signatures.value| == 0 {
      return;
    }
    var seen: set<string> := {};
    assert signatures.value[0..] == signatures.value;
    for k := 0 to |signatures.value|
      invariant forall s :: s in seen <==> s in result
      invariant NormalizeFrom(signatures.value[k..], result) == NormalizeFrom(signatures.value, [])
    {
      assert signatures.value[k..][0] == signatures.value[k] && signatures.value[k..][1..] == signatures.value[k + 1..];
      var value := Trim(signatures.value[k]);
      if value == "" || value in seen {
        continue;
      }
      seen := seen + {value};
      result := result + [value];
    }
  }

  function Recent(s: seq<string>): seq<string> {
    if |s| <= HISTORY_MAX then s else s[|s| - HISTORY_MAX..]
  }

  function AppendSeenSignature(signatures: seq<string>, signature: string): seq<string> {
    if Trim(signature) == "" || signature in signatures then signatures else Recent(signatures + [signature])
  }

  /** `signature` is the analysis' truncation signature, absent when nothing was truncated. */
  function BuildBootstrapPromptWarning(signature: Option<string>, mode: Mode, previous: Option<string>,
      seen: Option<seq<string>>): Warning {
    var normalized := Normalized(seen);
    var known := if Truthy(previous) then AppendSeenSignature(normalized, previous.value) else normalized;
    var hasSeen := Truthy(signature) && signature.value in known;
    Warning(signature, mode != Off && Truthy(signature) && (mode == Always || !hasSeen),
            if Truthy(signature) && mode != Off then AppendSeenSignature(known, signature.value) else known)
  }

  /** In every mode: a warning needs a signature and is shown unless warnings are off, always in `always` mode and
      otherwise only when neither the history nor the previous signature knows it; only a mode that is not off adds it
      to the history. */
  lemma WarningExactly(signature: Option<string>, mode: Mode, previous: Option<string>, seen: Option<seq<string>>)
    ensures var w := BuildBootstrapPromptWarning(signature, mode, previous, seen);
      var known := if previous.None? then Normalized(seen) else AppendSeenSignature(Normalized(seen), previous.value);
      w.signature == signature &&
      if signature.None? || signature.value == "" || mode == Off
      then !w.warningShown && w.warningSignaturesSeen == known
      else
        (w.warningShown <==> mode == Always || signature.value !in known) &&
        w.warningSignaturesSeen == AppendSeenSignature(known, signature.value)
  {
    hide Normalized, Recent;
    assert Trim("") == "";
  }

  /** A blank signature and one that is known leave the history alone; a new one goes to its end, of which the last 32
      are kept. */
  lemma AppendExactly(signatures: seq<string>, signature: string)
    ensures var r := AppendSeenSignature(signatures, signature);
      if Trim(signature) == "" || signature in signatures then r == signatures
      else
        var all := signatures + [signature];
        |r| == Min(|all|, 32) && r == all[|all| - |r|..]
  {
    hide Trim;
  }

  function BuildBootstrapTruncationReportMeta(mode: Mode, w: Warning): ReportMeta {
    var seen := w.warningSignaturesSeen;
    ReportMeta(mode, w.warningShown, w.signature, if seen == [] then None else Some(seen))
  }

  function ResolveBootstrapWarningSignaturesSeen(report: Option<ReportMeta>): seq<string> {
    var fromReport := if report.None? then [] else Normalized(report.value.warningSignaturesSeen);
    if fromReport != [] then fromReport
    else if report.None? || report.value.warningMode == Off then []
    else
      var single := if report.value.promptWarningSignature.Some? then Trim(report.value.promptWarningSignature.value)
        else "";
      if single == "" then [] else [single]
  }

  /** A report stands for its list of signatures, if any is left of it; else for its one signature, unless warnings were
      off. */
  lemma ResolvedExactly(report: ReportMeta)
    ensures var listed := Normalized(report.warningSignaturesSeen);
      var one := if report.promptWarningSignature.None? then "" else Trim(report.promptWarningSignature.value);
      ResolveBootstrapWarningSignaturesSeen(Some(report)) == (
        if listed != [] then listed else if one != "" && report.warningMode != Off then [one] else []) &&
      ResolveBootstrapWarningSignaturesSeen(None) == []
  {
    hide Trim, Normalized;
  }

  // --------------------------------------------------------------- normalised lists

  /** A signature as the truncation analysis prints it. */
  ghost predicate Canonical(s: string) {
    s != "" && Trim(s) == s
  }

  ghost predicate Normal(s: seq<string>) {
    NoDup(s) && forall x :: x in s ==> Canonical(x)
  }

  lemma {:induction false} NormalizeNormal(signatures: seq<string>, result: seq<string>)
    requires Normal(result)
    ensures Normal(NormalizeFrom(signatures, result))
    ensures forall x :: x in NormalizeFrom(signatures, result) <==> x in result || exists s ::
      s in signatures && Trim(s) == x && x != ""
    decreases |signatures|
  {
    hide Trim;
    if signatures == [] {
    } else {
      var value := Trim(signatures[0]);
      TrimIdempotent(signatures[0]);
      var next := if value == "" || value in result then result else result + [value];
      NormalizeNormal(signatures[1..], next);
      assert forall s :: s in signatures <==> s == signatures[0] || s in signatures[1..];
    }
  }

  lemma {:induction false} NormalizeFixed(signatures: seq<string>, result: seq<string>)
    requires Normal(result + signatures)
    ensures NormalizeFrom(signatures, result) == result + signatures
    decreases |signatures|
  {
    hide Trim;
    if signatures == [] {
      assert result + [] == result;
    } else {
      var all := result + signatures;
      assert all[|result|] == signatures[0] && signatures[0] in all;
      assert signatures[0] !in result by {
        assert forall i :: 0 <= i < |result| ==> all[i] == result[i];
      }
      assert result + [signatures[0]] + signatures[1..] == all;
      NormalizeFixed(signatures[1..], result + [signatures[0]]);
    }
  }

  /** A list is kept by normalising exactly when it is normal. */
  lemma NormalExactly(s: seq<string>)
    ensures NormalizeFrom(s, []) == s <==> Normal(s)
  {
    hide Trim, NormalizeFrom, NoDup, Canonical;
    assert Normal([]) by { EmptyNormal(); }
    NormalizeNormal(s, []);
    if Normal(s) {
      assert [] + s == s;
      NormalizeFixed(s, []);
    }
  }

  lemma EmptyNormal()
    ensures Normal([])
  {
    hide Trim;
  }

  lemma RecentMembers(s: seq<string>, x: string)
    ensures forall y :: y in Recent(s + [x]) ==> y in s || y == x
    ensures x in Recent(s + [x])
    ensures s != [] ==> s[|s| - 1] in Recent(s + [x])
    ensures |Recent(s + [x])| <= HISTORY_MAX
  {
    var r := Recent(s + [x]);
    assert r[|r| - 1] == x;
    assert s != [] ==> r[|r| - 2] == s[|s| - 1];
  }

  lemma RecentNoDup(s: seq<string>, x: string)
    requires NoDup(s) && x !in s
    ensures NoDup(Recent(s + [x]))
  {}

  lemma AppendNormal(s: seq<string>, x: string)
    requires Normal(s)
    ensures Normal(AppendSeenSignature(s, x)) <==> Trim(x) == "" || Canonical(x)
    ensures Trim(x) != "" ==> x in AppendSeenSignature(s, x)
    ensures |s| <= HISTORY_MAX ==> |AppendSeenSignature(s, x)| <= HISTORY_MAX
  {
    hide Trim, NoDup, Recent;
    if Trim(x) != "" && x !in s {
      RecentMembers(s, x);
      RecentNoDup(s, x);
    } else if Trim(x) == "" {
      TrimNothing();
    }
  }

  // ------------------------------------------------------------------ persistence

  /** Who is in a history after a signature is added; the two last always are. */
  lemma AppendMembers(s: seq<string>, x: string)
    ensures forall y :: y in AppendSeenSignature(s, x) ==> y in s || (y == x && Trim(x) != "")
    ensures s != [] ==> s[|s| - 1] in AppendSeenSignature(s, x)
  {
    hide Trim, Canonical;
    RecentMembers(s, x);
    hide Recent;
  }

  lemma BuiltNormal(signature: Option<string>, mode: Mode, previous: Option<string>, seen: Option<seq<string>>)
    requires signature.Some? ==> Canonical(signature.value)
    ensures Normal(BuildBootstrapPromptWarning(signature, mode, previous, seen).warningSignaturesSeen) <==>
      (previous.Some? ==> Trim(previous.value) == "" || Trim(previous.value) == previous.value)
  {
    hide Trim, NormalizeFrom;
    var normalized := Normalized(seen);
    assert Normal([]);
    if seen.Some? {
      NormalizeNormal(seen.value, []);
    }
    if Truthy(previous) {
      var known := AppendSeenSignature(normalized, previous.value);
      AppendNormal(normalized, previous.value);
      if Normal(known) {
        if signature.Some? {
          AppendNormal(known, signature.value);
        }
      } else {
        AppendedLast(normalized, previous.value);
        if signature.Some? {
          AppendMembers(known, signature.value);
        }
      }
    } else {
      TrimNothing();
      if signature.Some? {
        AppendNormal(normalized, signature.value);
      }
    }
  }

  lemma TrimNothing()
    ensures Trim("") == ""
  {}

  lemma AppendedLast(s: seq<string>, x: string)
    requires Normal(s) && !Normal(AppendSeenSignature(s, x))
    ensures var r := AppendSeenSignature(s, x); r != [] && r[|r| - 1] == x && !Canonical(x)
  {
    hide Trim;
    AppendNormal(s, x);
    assert x !in s;
  }

  /** Reading a report back gives exactly the history that was stored, in every mode, exactly when the previous
      signature handed in was blank or had no white space around it. */
  lemma {:induction false} ReadBackExactly(signature: Option<string>, mode: Mode, previous: Option<string>,
      seen: Option<seq<string>>)
    requires signature.Some? ==> Canonical(signature.value)
    ensures var w := BuildBootstrapPromptWarning(signature, mode, previous, seen);
      ResolveBootstrapWarningSignaturesSeen(Some(BuildBootstrapTruncationReportMeta(mode, w))) ==
        w.warningSignaturesSeen <==>
      (previous.Some? ==> Trim(previous.value) == "" || Trim(previous.value) == previous.value)
  {
    hide Trim, NormalizeFrom;
    var w := BuildBootstrapPromptWarning(signature, mode, previous, seen);
    BuiltNormal(signature, mode, previous, seen);
    NormalExactly(w.warningSignaturesSeen);
    if w.warningSignaturesSeen == [] && mode != Off && signature.Some? {
      SignatureStored(signature, mode, previous, seen);
    } else if w.warningSignaturesSeen != [] {
      NormalizedNonEmpty(w.warningSignaturesSeen, signature, mode, previous, seen);
    }
  }

  /** A previous signature with a blank before it is stored as it is and read back without the blank. */
  lemma UntrimmedReadBack()
    ensures var w := BuildBootstrapPromptWarning(None, Once, Some(" a"), None);
      w.warningSignaturesSeen == [" a"] &&
      ResolveBootstrapWarningSignaturesSeen(Some(BuildBootstrapTruncationReportMeta(Once, w))) == ["a"]
  {
    assert Trim(" a") == "a" by {
      assert TrimEnd(" a") == " a" && " a"[1..] == "a";
    }
    assert [] + [" a"] == [" a"] && [" a"][1..] == [] && [] + ["a"] == ["a"];
  }

  lemma SignatureStored(signature: Option<string>, mode: Mode, previous: Option<string>, seen: Option<seq<string>>)
    requires signature.Some? && Canonical(signature.value) && mode != Off
    ensures BuildBootstrapPromptWarning(signature, mode, previous, seen).warningSignaturesSeen != []
  {
    hide Trim, NormalizeFrom;
    var known := if Truthy(previous) then AppendSeenSignature(Normalized(seen), previous.value) else Normalized(seen);
    RecentMembers(known, signature.value);
    hide Recent;
    assert signature.value in AppendSeenSignature(known, signature.value);
  }

  /** A stored history never normalises to nothing. */
  lemma NormalizedNonEmpty(stored: seq<string>, signature: Option<string>, mode: Mode, previous: Option<string>,
      seen: Option<seq<string>>)
    requires signature.Some? ==> Canonical(signature.value)
    requires stored == BuildBootstrapPromptWarning(signature, mode, previous, seen).warningSignaturesSeen &&
      stored != []
    ensures NormalizeFrom(stored, []) != []
  {
    hide Trim, NormalizeFrom;
    assert Normal([]);
    if seen.Some? {
      NormalizeNormal(seen.value, []);
    }
    StoredNonBlank(Normalized(seen), signature, mode, previous);
    NormalizeNormal(stored, []);
    assert stored[0] in stored;
    assert Trim(stored[0]) in NormalizeFrom(stored, []);
  }

  lemma StoredNonBlank(normalized: seq<string>, signature: Option<string>, mode: Mode, previous: Option<string>)
    requires Normal(normalized) && (signature.Some? ==> Canonical(signature.value))
    ensures var known := if Truthy(previous) then AppendSeenSignature(normalized, previous.value) else normalized;
      var stored := if Truthy(signature) && mode != Off then AppendSeenSignature(known, signature.value) else known;
      forall x :: x in stored ==> Trim(x) != ""
  {
    hide Trim, AppendSeenSignature, NoDup;
    var known := if Truthy(previous) then AppendSeenSignature(normalized, previous.value) else normalized;
    if Truthy(previous) {
      AppendMembers(normalized, previous.value);
    }
    if Truthy(signature) {
      AppendMembers(known, signature.value);
    }
  }

  // --------------------------------------------------------- how soon a warning repeats

  /** One prompt in `once` mode, with the history read back from the last report. */
  function Next(history: seq<string>, signature: Option<string>): Warning {
    BuildBootstrapPromptWarning(signature, Once, None, Some(history))
  }

  function HistoryAfter(history: seq<string>, signatures: seq<Option<string>>): seq<string>
    decreases |signatures|
  {
    if signatures == [] then history else HistoryAfter(Next(history, signatures[0]).warningSignaturesSeen,
      signatures[1..])
  }

  /** The signatures other than `x` whose warning is shown along the way. */
  ghost function ShownOthers(history: seq<string>, signatures: seq<Option<string>>, x: string): set<string>
    decreases |signatures|
  {
    if signatures == [] then {} else
    var w := Next(history, signatures[0]);
    (if w.warningShown && signatures[0].value != x then {signatures[0].value} else {}) +
      ShownOthers(w.warningSignaturesSeen, signatures[1..], x)
  }

  ghost predicate AllCanonical(signatures: seq<Option<string>>) {
    forall s :: s in signatures && s.Some? ==> Canonical(s.value)
  }

  ghost predicate Stored(history: seq<string>) {
    Normal(history) && |history| <= HISTORY_MAX
  }

  /** What one prompt does to a stored history: a new signature is shown and goes to its end, at most pushing the
      oldest out. */
  lemma NextLaw(history: seq<string>, signature: Option<string>)
    requires Stored(history) && (signature.Some? ==> Canonical(signature.value))
    ensures var w := Next(history, signature);
      Stored(w.warningSignaturesSeen) && (w.warningShown <==> signature.Some? && signature.value !in history) &&
      w.warningSignaturesSeen == if w.warningShown then Recent(history + [signature.value]) else history
  {
    hide Trim, NormalizeFrom;
    NormalExactly(history);
    if signature.Some? {
      AppendNormal(history, signature.value);
    }
  }

  /** The last signature of a history, which the callers hand in beside it. */
  function LastSeen(history: seq<string>): Option<string> {
    if history == [] then None else Some(history[|history| - 1])
  }

  /** Handing in the last signature of a stored history as well makes no difference. */
  lemma PreviousIsKnown(history: seq<string>, signature: Option<string>)
    requires Stored(history)
    ensures BuildBootstrapPromptWarning(signature, Once, LastSeen(history), Some(history)) == Next(history, signature)
  {
    hide Trim, NormalizeFrom;
    NormalExactly(history);
  }

  lemma {:induction false} HistoryStored(history: seq<string>, signatures: seq<Option<string>>)
    requires Stored(history) && AllCanonical(signatures)
    ensures Stored(HistoryAfter(history, signatures))
    decreases |signatures|
  {
    hide Next, Stored, Canonical;
    if signatures == [] {
    } else {
      assert signatures[0] in signatures;
      NextLaw(history, signatures[0]);
      HistoryStored(Next(history, signatures[0]).warningSignaturesSeen, signatures[1..]);
    }
  }

  function Elements(s: seq<string>): set<string> {
    set x | x in s
  }

  lemma {:induction false} DistinctCount(s: seq<string>)
    requires NoDup(s)
    ensures |Elements(s)| == |s|
    decreases |s|
  {
    if s == [] {
    } else {
      var front, last := s[..|s| - 1], s[|s| - 1];
      DistinctCount(front);
      assert Elements(s) == Elements(front) + {last};
      assert last !in front;
    }
  }

  /** What a shown warning does to the history, seen from `x` on. */
  lemma ShownStep(older: seq<string>, x: string, newer: seq<string>, s: string)
    requires |older + [x] + newer| <= HISTORY_MAX
    ensures var h := Recent(older + [x] + newer + [s]);
      if |older + [x] + newer| < HISTORY_MAX then h == older + [x] + (newer + [s])
      else if older != [] then h == older[1..] + [x] + (newer + [s])
      else h == newer + [s]
  {
    assert older + [x] + newer + [s] == older + [x] + (newer + [s]);
  }

  lemma ElementsOneMore(s: seq<string>, x: string)
    ensures Elements(s + [x]) == Elements(s) + {x}
  {}

  /** `newer` are the signatures shown since `x`; by the time `x` has left the history there are 32 of them. */
  lemma {:induction false} GapWhileForgetting(older: seq<string>, x: string, newer: seq<string>,
      signatures: seq<Option<string>>)
    requires Stored(older + [x] + newer) && AllCanonical(signatures)
    requires x !in HistoryAfter(older + [x] + newer, signatures)
    ensures |Elements(newer) + ShownOthers(older + [x] + newer, signatures, x)| >= HISTORY_MAX
    decreases |signatures|
  {
    hide Next, Canonical, Normal, Recent, Elements;
    var h := older + [x] + newer;
    assert h[|older|] == x;
    assert x in h;
    var s := signatures[0];
    assert s in signatures;
    NextLaw(h, s);
    var w := Next(h, s);
    if !w.warningShown {
      GapWhileForgetting(older, x, newer, signatures[1..]);
    } else {
      var longer := newer + [s.value];
      ShownStep(older, x, newer, s.value);
      ElementsOneMore(newer, s.value);
      if |h| < HISTORY_MAX {
        GapWhileForgetting(older, x, longer, signatures[1..]);
      } else if older != [] {
        GapWhileForgetting(older[1..], x, longer, signatures[1..]);
      } else {
        assert NoDup(longer) by { assert Normal(longer) ==> NoDup(longer) by { hide *; NormalNoDup(longer); } }
        DistinctCount(longer);
        SubsetSize(Elements(longer), Elements(longer) + ShownOthers(w.warningSignaturesSeen, signatures[1..], x));
      }
      assert Elements(longer) + ShownOthers(w.warningSignaturesSeen, signatures[1..], x) ==
        Elements(newer) + ShownOthers(h, signatures, x);
    }
  }

  lemma NormalNoDup(s: seq<string>)
    ensures Normal(s) ==> NoDup(s)
  {}

  /** In `once` mode, from an empty history, between two showings of the same warning at least 32 different other
      warnings are shown. */
  lemma {:induction false} RepeatsAreFarApart(before: seq<Option<string>>, x: string, between: seq<Option<string>>)
    requires AllCanonical(before) && AllCanonical(between) && Canonical(x)
    requires Next(HistoryAfter([], before), Some(x)).warningShown
    requires Next(HistoryAfter(Next(HistoryAfter([], before), Some(x)).warningSignaturesSeen, between),
      Some(x)).warningShown
    ensures var start := Next(HistoryAfter([], before), Some(x)).warningSignaturesSeen;
      |ShownOthers(start, between, x)| >= HISTORY_MAX && x !in ShownOthers(start, between, x)
  {
    hide Next, Canonical, NoDup;
    assert Stored([]) by { EmptyStored(); }
    HistoryStored([], before);
    var h := HistoryAfter([], before);
    NextLaw(h, Some(x));
    var start := Next(h, Some(x)).warningSignaturesSeen;
    HistoryStored(start, between);
    NextLaw(HistoryAfter(start, between), Some(x));
    var older := start[..|start| - 1];
    assert start == older + [x] + [];
    GapWhileForgetting(older, x, [], between);
    assert Elements([]) + ShownOthers(start, between, x) == ShownOthers(start, between, x);
    NotAmongOthers(start, between, x);
  }

  ghost predicate Absent(x: string, signatures: seq<Option<string>>) {
    Some(x) !in signatures
  }

  lemma {:induction false} StaysForgotten(history: seq<string>, x: string, signatures: seq<Option<string>>)
    requires Stored(history) && AllCanonical(signatures) && x !in history && Absent(x, signatures)
    ensures x !in HistoryAfter(history, signatures)
    decreases |signatures|
  {
    hide Next, Canonical, Stored;
    if signatures == [] {
    } else {
      var s := signatures[0];
      assert s in signatures;
      NextLaw(history, s);
      if s.Some? {
        RecentMembers(history, s.value);
      }
      hide Recent;
      StaysForgotten(Next(history, s).warningSignaturesSeen, x, signatures[1..]);
    }
  }

  lemma {:induction false} GapWhileRemembering(older: seq<string>, x: string, newer: seq<string>,
      signatures: seq<Option<string>>)
    requires Stored(older + [x] + newer) && AllCanonical(signatures) && Absent(x, signatures)
    requires x in HistoryAfter(older + [x] + newer, signatures)
    ensures |Elements(newer) + ShownOthers(older + [x] + newer, signatures, x)| < HISTORY_MAX
    decreases |signatures|
  {
    hide Next, Canonical, Normal, Recent, Elements;
    var h := older + [x] + newer;
    if signatures == [] {
      NothingElseShown(h, newer, x);
      return;
    }
    var s := signatures[0];
    assert s in signatures;
    NextLaw(h, s);
    var w := Next(h, s);
    if !w.warningShown {
      GapWhileRemembering(older, x, newer, signatures[1..]);
    } else {
      var longer := newer + [s.value];
      ShownStep(older, x, newer, s.value);
      ElementsOneMore(newer, s.value);
      if |h| < HISTORY_MAX {
        GapWhileRemembering(older, x, longer, signatures[1..]);
      } else if older != [] {
        GapWhileRemembering(older[1..], x, longer, signatures[1..]);
      } else {
        NormalSplit(x, newer);
        assert s.value != x;
        StaysForgotten(longer, x, signatures[1..]);
      }
      assert Elements(longer) + ShownOthers(w.warningSignaturesSeen, signatures[1..], x) ==
        Elements(newer) + ShownOthers(h, signatures, x);
    }
  }

  lemma NothingElseShown(h: seq<string>, newer: seq<string>, x: string)
    ensures |Elements(newer) + ShownOthers(h, [], x)| <= |newer|
  {
    ElementsCount(newer);
    assert Elements(newer) + {} == Elements(newer);
  }

  lemma NormalSplit(x: string, newer: seq<string>)
    requires Normal([] + [x] + newer)
    ensures x !in newer
  {
    var h := [] + [x] + newer;
    assert h[0] == x && forall k :: 0 <= k < |newer| ==> h[k + 1] == newer[k];
  }

  lemma {:induction false} ElementsCount(s: seq<string>)
    ensures |Elements(s)| <= |s|
    decreases |s|
  {
    if s == [] {
    } else {
      ElementsCount(s[..|s| - 1]);
      ElementsOneMore(s[..|s| - 1], s[|s| - 1]);
      assert s == s[..|s| - 1] + [s[|s| - 1]];
    }
  }

  /** A warning that was just shown is shown again exactly when 32 different others were shown since. */
  lemma {:induction false} ShownAgainExactly(history: seq<string>, x: string, between: seq<Option<string>>)
    requires Stored(history) && x !in history && AllCanonical(between) && Canonical(x) && Absent(x, between)
    ensures var start := Next(history, Some(x)).warningSignaturesSeen;
      Next(HistoryAfter(start, between), Some(x)).warningShown <==> |ShownOthers(start, between, x)| >= HISTORY_MAX
  {
    hide Next, Canonical, NoDup;
    NextLaw(history, Some(x));
    var start := Next(history, Some(x)).warningSignaturesSeen;
    HistoryStored(start, between);
    NextLaw(HistoryAfter(start, between), Some(x));
    var older := start[..|start| - 1];
    assert start == older + [x] + [];
    assert Elements([]) + ShownOthers(start, between, x) == ShownOthers(start, between, x);
    if x in HistoryAfter(start, between) {
      GapWhileRemembering(older, x, [], between);
    } else {
      GapWhileForgetting(older, x, [], between);
    }
  }

  lemma EmptyStored()
    ensures Stored([])
  {}

  lemma {:induction false} NotAmongOthers(history: seq<string>, signatures: seq<Option<string>>, x: string)
    ensures x !in ShownOthers(history, signatures, x)
    decreases |signatures|
  {
    hide Next;
    if signatures == [] {
    } else {
      NotAmongOthers(Next(history, signatures[0]).warningSignaturesSeen, signatures[1..], x);
    }
  }
}
