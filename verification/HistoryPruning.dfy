// src/agents/compaction.ts: dropping the oldest chunks of a history until the
// rest fits its share of the context window.
module HistoryPruning {
  import opened JsText
  import opened TokenChunks
  import opened TranscriptRepair
  import opened RepairAccounts

  datatype PruneResult = PruneResult(
    messages: seq<Message>, droppedMessagesList: seq<Message>, droppedChunks: nat, droppedMessages: nat,
    droppedTokens: nat, keptTokens: nat, budgetTokens: nat)

  /** What has been dropped so far. */
  datatype Dropped = Dropped(list: seq<Message>, chunks: nat, count: nat, tokens: nat)

  const NOTHING_DROPPED := Dropped([], 0, 0, 0)

  function Budget(maxContextTokens: int, maxHistoryShare: real): (b: nat)
    ensures b == 1 || (b > 1 && b as real <= maxContextTokens as real * maxHistoryShare)
    ensures maxContextTokens as real * maxHistoryShare < (b + 1) as real
  {
    Max(1, (maxContextTokens as real * maxHistoryShare).Floor)
  }

  function Cut(est: Message -> nat, kept: seq<Message>, n: nat): seq<seq<Message>> {
    SplitByShare(est, kept, Finite(n as real))
  }

  /** Whether the loop goes round once more. */
  predicate GoesOn(est: Message -> nat, kept: seq<Message>, n: nat, budget: nat) {
    kept != [] && Tokens(est, kept) > budget && |Cut(est, kept, n)| > 1
  }

  function Later(est: Message -> nat, kept: seq<Message>, n: nat): seq<Message>
    requires |Cut(est, kept, n)| > 1
  {
    Concat(Cut(est, kept, n)[1..])
  }

  function DropFirst(est: Message -> nat, kept: seq<Message>, n: nat, d: Dropped): Dropped
    requires |Cut(est, kept, n)| > 1
  {
    var first := Cut(est, kept, n)[0];
    Dropped(d.list + first, d.chunks + 1, d.count + |first| + Repaired(Later(est, kept, n)).droppedOrphanCount,
            d.tokens + Tokens(est, first))
  }

  /** Starts with a tool result, which a repair would drop as an orphan. */
  predicate HeadIsResult(ms: seq<Message>) {
    ms != [] && ms[0].ToolResult?
  }

  lemma RoundParts(est: Message -> nat, kept: seq<Message>, n: nat)
    requires |Cut(est, kept, n)| > 1
    ensures var first := Cut(est, kept, n)[0];
      first != [] && kept == first + Later(est, kept, n)
  {
    hide Tokens;
    SplitLaw(est, kept, Finite(n as real));
  }

  /** Every round loses a message that is not a tool result, or else clears the leading tool results for good;
      so the loop ends although repairs may insert synthetic results. */
  lemma {:induction false} RoundDecreases(est: Message -> nat, kept: seq<Message>, n: nat)
    requires |Cut(est, kept, n)| > 1
    ensures var next := Repaired(Later(est, kept, n)).messages;
      |NonTool(next)| < |NonTool(kept)| ||
        (|NonTool(next)| == |NonTool(kept)| && HeadIsResult(kept) && !HeadIsResult(next))
  {
    hide Cut, Later, Repaired;
    var first, later := Cut(est, kept, n)[0], Later(est, kept, n);
    RoundParts(est, kept, n);
    NonToolAppend(first, later);
    RepairKeepsOthers(later);
    RepairPairs(later);
    if !first[0].ToolResult? {
      assert |NonTool(first)| > 0;
    }
  }

  function PruneFrom(est: Message -> nat, kept: seq<Message>, n: nat, budget: nat, d: Dropped): (seq<Message>, Dropped)
    decreases |NonTool(kept)|, HeadIsResult(kept)
  {
    if !GoesOn(est, kept, n, budget) then (kept, d) else
    RoundDecreases(est, kept, n);
    PruneFrom(est, Repaired(Later(est, kept, n)).messages, n, budget, DropFirst(est, kept, n, d))
  }

  function Pruned(est: Message -> nat, messages: seq<Message>, maxContextTokens: int, maxHistoryShare: real,
      parts: Parts): PruneResult {
    var budget := Budget(maxContextTokens, maxHistoryShare);
    var (kept, d) := PruneFrom(est, messages, NormalizeParts(parts, |messages|), budget, NOTHING_DROPPED);
    PruneResult(kept, d.list, d.chunks, d.count, d.tokens, Tokens(est, kept), budget)
  }

  method PruneHistoryForContextShare(est: Message -> nat, messages: seq<Message>, maxContextTokens: int,
      maxHistoryShare: real, parts: Parts)
    returns (r: PruneResult)
    ensures r == Pruned(est, messages, maxContextTokens, maxHistoryShare, parts)
  {
    hide Repaired, NonTool, SplitByShare;
    var budgetTokens := Budget(maxContextTokens, maxHistoryShare);
    var keptMessages := messages;
    var allDroppedMessages: seq<Message>, droppedChunks: nat, droppedMessages: nat, droppedTokens: nat := [], 0, 0, 0;
    var n := NormalizeParts(parts, |keptMessages|);
    while |keptMessages| > 0
      invariant PruneFrom(est, keptMessages, n, budgetTokens,
        Dropped(allDroppedMessages, droppedChunks, droppedMessages, droppedTokens))
             == PruneFrom(est, messages, n, budgetTokens, NOTHING_DROPPED)
      decreases |NonTool(keptMessages)|, HeadIsResult(keptMessages)
    {
      var keptTokens := EstimateMessagesTokens(est, keptMessages);
      if keptTokens <= budgetTokens {
        break;
      }
      var chunks := SplitMessagesByTokenShare(est, keptMessages, Finite(n as real));
      if |chunks| <= 1 {
        break;
      }
      var dropped := chunks[0];
      var flatRest := Concat(chunks[1..]);
      var repairReport := RepairToolUseResultPairing(flatRest);
      var droppedSize := EstimateMessagesTokens(est, dropped);
      RoundDecreases(est, keptMessages, n);
      droppedChunks := droppedChunks + 1;
      droppedMessages := droppedMessages + |dropped| + repairReport.droppedOrphanCount;
      droppedTokens := droppedTokens + droppedSize;
      allDroppedMessages := allDroppedMessages + dropped;
      keptMessages := repairReport.messages;
    }
    var keptTokens := EstimateMessagesTokens(est, keptMessages);
    r := PruneResult(keptMessages, allDroppedMessages, droppedChunks, droppedMessages, droppedTokens, keptTokens,
      budgetTokens);
  }

  // ------------------------------------------------------------------------ laws

  /** The loop stops only when the kept messages fit the budget, at most one is left, or no split was asked for. */
  lemma {:induction false} PruneStopsWhen(est: Message -> nat, kept: seq<Message>, n: nat, budget: nat, d: Dropped)
    requires budget >= 1
    ensures var r := PruneFrom(est, kept, n, budget, d).0;
      Tokens(est, r) <= budget || |r| <= 1 || n <= 1
    decreases |NonTool(kept)|, HeadIsResult(kept)
  {
    hide NonTool, Repaired, SplitByShare, Tokens, Later, DropFirst;
    if GoesOn(est, kept, n, budget) {
      RoundDecreases(est, kept, n);
      PruneStopsWhen(est, Repaired(Later(est, kept, n)).messages, n, budget, DropFirst(est, kept, n, d));
    } else if Tokens(est, kept) > budget && |kept| > 1 && n > 1 {
      WholeParts(n, |kept|);
      SplitMakesProgress(est, kept, Finite(n as real));
    }
  }

  lemma WholeParts(n: nat, count: nat)
    requires n > 1 && count > 1
    ensures NormalizeParts(Finite(n as real), count) >= 2
  {
    assert (n as real).Floor == n;
  }

  /** `rounds` are the histories before each round and after the last: each but the last is over the budget and is cut
      in two or more, and the next one is what a repair makes of all but the first part. */
  ghost predicate Rounds(est: Message -> nat, n: nat, budget: nat, rounds: seq<seq<Message>>, cuts: seq<seq<Message>>) {
    |rounds| == |cuts| + 1 &&
    forall k :: 0 <= k < |cuts| ==> Round(est, n, budget, rounds[k], cuts[k], rounds[k + 1])
  }

  ghost predicate Round(est: Message -> nat, n: nat, budget: nat, kept: seq<Message>, cut: seq<Message>,
      next: seq<Message>)
  {
    var parts := SplitByShare(est, kept, Finite(n as real));
    Tokens(est, kept) > budget && |parts| > 1 && cut == parts[0] && next == Repaired(Concat(parts[1..])).messages
  }

  /** The loop is a run of such rounds that goes on until the budget is met or nothing can be cut; it drops exactly the
      first parts, in order, and counts one chunk for each. */
  lemma {:induction false} PruneRounds(est: Message -> nat, kept: seq<Message>, n: nat, budget: nat, d: Dropped)
      returns (rounds: seq<seq<Message>>, cuts: seq<seq<Message>>)
    ensures Rounds(est, n, budget, rounds, cuts) && rounds[0] == kept
    ensures var r := PruneFrom(est, kept, n, budget, d);
      r.0 == rounds[|cuts|] && r.1.list == d.list + Concat(cuts) && r.1.chunks == d.chunks + |cuts| &&
      (Tokens(est, r.0) <= budget || |SplitByShare(est, r.0, Finite(n as real))| <= 1)
    decreases |NonTool(kept)|, HeadIsResult(kept)
  {
    hide NonTool, Repaired, SplitByShare, Tokens;
    if GoesOn(est, kept, n, budget) {
      RoundDecreases(est, kept, n);
      var cut, next := Cut(est, kept, n)[0], Repaired(Later(est, kept, n)).messages;
      var more, rest := PruneRounds(est, next, n, budget, DropFirst(est, kept, n, d));
      rounds, cuts := [kept] + more, [cut] + rest;
      assert Round(est, n, budget, kept, cut, next);
      assert d.list + cut + Concat(rest) == d.list + (cut + Concat(rest)) && cuts[1..] == rest;
    } else {
      rounds, cuts := [kept], [];
      if kept == [] {
        EmptyTokens(est);
      }
      assert d.list + [] == d.list;
    }
  }

  /** Dropped and kept together hold exactly the input's messages, in order, tool results aside. */
  lemma {:induction false} PruneConserves(est: Message -> nat, kept: seq<Message>, n: nat, budget: nat, d: Dropped)
    ensures var r := PruneFrom(est, kept, n, budget, d);
      NonTool(r.1.list) + NonTool(r.0) == NonTool(d.list) + NonTool(kept)
    decreases |NonTool(kept)|, HeadIsResult(kept)
  {
    hide NonTool, Repaired, Cut, Tokens, Later;
    if GoesOn(est, kept, n, budget) {
      var first, later := Cut(est, kept, n)[0], Later(est, kept, n);
      RoundDecreases(est, kept, n);
      RoundParts(est, kept, n);
      NonToolAppend(first, later);
      NonToolAppend(d.list, first);
      RepairKeepsOthers(later);
      PruneConserves(est, Repaired(later).messages, n, budget, DropFirst(est, kept, n, d));
    }
  }

  /** Every message kept or dropped is one of the input, but a tool result may be renamed, or be one that a repair added
      for a call of the input. */
  lemma {:induction false} PruneOriginates(est: Message -> nat, kept: seq<Message>, n: nat, budget: nat, d: Dropped,
      all: seq<Message>)
    requires Originate(kept, all) && Originate(d.list, all)
    ensures var r := PruneFrom(est, kept, n, budget, d); Originate(r.0, all) && Originate(r.1.list, all)
    decreases |NonTool(kept)|, HeadIsResult(kept)
  {
    hide NonTool, Repaired, Cut, Tokens, Later, Originate;
    if GoesOn(est, kept, n, budget) {
      var first, later := Cut(est, kept, n)[0], Later(est, kept, n);
      RoundDecreases(est, kept, n);
      RoundParts(est, kept, n);
      OriginateParts(d.list, first, later, kept, all);
      RepairOriginates(later);
      OriginateFurther(Repaired(later).messages, later, all);
      PruneOriginates(est, Repaired(later).messages, n, budget, DropFirst(est, kept, n, d), all);
    }
  }

  lemma OriginateParts(list: seq<Message>, first: seq<Message>, later: seq<Message>, kept: seq<Message>,
      all: seq<Message>)
    requires kept == first + later && Originate(kept, all) && Originate(list, all)
    ensures Originate(list + first, all) && Originate(later, all)
  {
    hide FromInput, Synthetic;
    assert forall m :: m in kept <==> m in first || m in later;
  }

  /** The token count of what was dropped is the tokens of the dropped list, which only ever grows at its end. */
  lemma {:induction false} PruneCountsTokens(est: Message -> nat, kept: seq<Message>, n: nat, budget: nat, d: Dropped)
    requires d.tokens == Tokens(est, d.list)
    ensures var r := PruneFrom(est, kept, n, budget, d);
      r.1.tokens == Tokens(est, r.1.list) && d.list <= r.1.list && d.chunks <= r.1.chunks
    decreases |NonTool(kept)|, HeadIsResult(kept)
  {
    hide NonTool, Repaired, Cut, Tokens, Later;
    if GoesOn(est, kept, n, budget) {
      RoundDecreases(est, kept, n);
      TokensAppend(est, d.list, Cut(est, kept, n)[0]);
      PruneCountsTokens(est, Repaired(Later(est, kept, n)).messages, n, budget, DropFirst(est, kept, n, d));
    }
  }

  /** Once anything was dropped, no kept tool result is without its call. */
  lemma {:induction false} PruneLeavesPaired(est: Message -> nat, kept: seq<Message>, n: nat, budget: nat, d: Dropped)
    ensures var r := PruneFrom(est, kept, n, budget, d);
      if GoesOn(est, kept, n, budget) then r.1.chunks > d.chunks && Paired({}, r.0) else r == (kept, d)
    decreases |NonTool(kept)|, HeadIsResult(kept)
  {
    hide NonTool, Repaired, GoesOn, Cut, Later, Paired;
    if GoesOn(est, kept, n, budget) {
      GoesOnCut(est, kept, n, budget);
      RoundDecreases(est, kept, n);
      RepairPairs(Later(est, kept, n));
      PruneLeavesPaired(est, Repaired(Later(est, kept, n)).messages, n, budget, DropFirst(est, kept, n, d));
    }
  }

  lemma GoesOnCut(est: Message -> nat, kept: seq<Message>, n: nat, budget: nat)
    requires GoesOn(est, kept, n, budget)
    ensures |Cut(est, kept, n)| > 1
  {}

  // ------------------------------------------------------- the reported message count

  /** The synthetic results that the repairs of a run added, less the duplicates they reported and the balance of the
      runs they cut down, which with distinct call ids is the number of repeated results passed over. */
  function NetAdded(est: Message -> nat, kept: seq<Message>, n: nat, budget: nat): int
    decreases |NonTool(kept)|, HeadIsResult(kept)
  {
    if !GoesOn(est, kept, n, budget) then 0 else
    RoundDecreases(est, kept, n);
    var later := Later(est, kept, n);
    var report := Repaired(later);
    |report.added| - report.droppedDuplicateCount - (if report.moved then Repeats(later, {}) else 0) +
    NetAdded(est, report.messages, n, budget)
  }

  /** The reported count and the kept messages are the input and every synthetic result, without the reported duplicates
      and that balance, both of which the count leaves out. */
  lemma {:induction false} PruneCount(est: Message -> nat, kept: seq<Message>, n: nat, budget: nat, d: Dropped)
    ensures var r := PruneFrom(est, kept, n, budget, d);
      r.1.count + |r.0| == d.count + |kept| + NetAdded(est, kept, n, budget)
    decreases |NonTool(kept)|, HeadIsResult(kept)
  {
    hide NonTool, Repaired, Cut, Later, Tokens, Repeats;
    if GoesOn(est, kept, n, budget) {
      RoundDecreases(est, kept, n);
      RoundParts(est, kept, n);
      RepairedLength(Later(est, kept, n));
      PruneCount(est, Repaired(Later(est, kept, n)).messages, n, budget, DropFirst(est, kept, n, d));
    }
  }

  /** No tool result and no call that would expect one. */
  predicate ToolFree(ms: seq<Message>) {
    forall m :: m in ms ==> m.Other? || (m.Assistant? && EffectiveCalls(m) == [])
  }

  lemma {:induction false} RepairOfToolFree(ms: seq<Message>, st: Repair)
    requires ToolFree(ms)
    ensures RepairFrom(ms, st) == st.(out := st.out + ms)
    decreases |ms|
  {
    hide EffectiveCalls, SpanAfter;
    if ms == [] {
      assert st.out + [] == st.out;
    } else {
      assert ms[0] in ms && forall m :: m in ms[1..] ==> m in ms;
      RepairOfToolFree(ms[1..], st.(out := st.out + [ms[0]]));
      assert st.out + [ms[0]] + ms[1..] == st.out + ms;
    }
  }

  /** In a history without tools, the dropped list followed by the kept messages is the input, and is counted
      exactly. */
  lemma {:induction false} PruneOfToolFree(est: Message -> nat, kept: seq<Message>, n: nat, budget: nat, d: Dropped)
    requires ToolFree(kept)
    ensures var r := PruneFrom(est, kept, n, budget, d);
      r.1.list + r.0 == d.list + kept && r.1.count - d.count == |r.1.list| - |d.list|
    decreases |NonTool(kept)|, HeadIsResult(kept)
  {
    hide NonTool, Cut, Later, Tokens, RepairFrom;
    if GoesOn(est, kept, n, budget) {
      var first, later := Cut(est, kept, n)[0], Later(est, kept, n);
      RoundDecreases(est, kept, n);
      RoundParts(est, kept, n);
      assert ToolFree(later) by { assert forall m :: m in later ==> m in kept; }
      RepairOfToolFree(later, NO_REPAIR);
      PruneOfToolFree(est, later, n, budget, DropFirst(est, kept, n, d));
      assert d.list + first + later == d.list + kept;
    }
  }

  lemma OriginateItself(ms: seq<Message>)
    ensures Originate(ms, ms) && Originate([], ms)
  {
    hide Synthetic;
  }

  /** What a caller gets: the guarantees above, on the returned record. */
  lemma PruneResultLaw(est: Message -> nat, messages: seq<Message>, maxContextTokens: int, maxHistoryShare: real,
      parts: Parts)
    ensures var r := Pruned(est, messages, maxContextTokens, maxHistoryShare, parts);
      (r.keptTokens <= r.budgetTokens || |r.messages| <= 1 || NormalizeParts(parts, |messages|) == 1) &&
      (Tokens(est, messages) <= r.budgetTokens ==> r.droppedChunks == 0) &&
      NonTool(r.droppedMessagesList) + NonTool(r.messages) == NonTool(messages) &&
      r.keptTokens == Tokens(est, r.messages) && r.droppedTokens == Tokens(est, r.droppedMessagesList) &&
      Originate(r.messages, messages) && Originate(r.droppedMessagesList, messages) &&
      (if r.droppedChunks == 0 then r.messages == messages && r.droppedMessagesList == []
        else Paired({}, r.messages)) &&
      (ToolFree(messages) ==>
        r.droppedMessagesList + r.messages == messages && r.droppedMessages == |r.droppedMessagesList|)
  {
    hide PruneFrom, NonTool, Tokens, Paired, Originate;
    var budget, n := Budget(maxContextTokens, maxHistoryShare), NormalizeParts(parts, |messages|);
    OriginateItself(messages);
    PruneOriginates(est, messages, n, budget, NOTHING_DROPPED, messages);
    PruneStopsWhen(est, messages, n, budget, NOTHING_DROPPED);
    PruneConserves(est, messages, n, budget, NOTHING_DROPPED);
    NonToolEmpty();
    EmptyTokens(est);
    PruneCountsTokens(est, messages, n, budget, NOTHING_DROPPED);
    PruneLeavesPaired(est, messages, n, budget, NOTHING_DROPPED);
    if ToolFree(messages) {
      PruneOfToolFree(est, messages, n, budget, NOTHING_DROPPED);
    }
  }

  /** The returned record is that of such rounds, under the floor of the share of the context, or one token. */
  lemma PrunedByRounds(est: Message -> nat, messages: seq<Message>, maxContextTokens: int, maxHistoryShare: real,
      parts: Parts)
    returns (rounds: seq<seq<Message>>, cuts: seq<seq<Message>>)
    ensures var r, share := Pruned(est, messages, maxContextTokens, maxHistoryShare, parts),
        maxContextTokens as real * maxHistoryShare;
      Rounds(est, NormalizeParts(parts, |messages|), r.budgetTokens, rounds, cuts) && rounds[0] == messages &&
      r.messages == rounds[|cuts|] && r.droppedMessagesList == Concat(cuts) && r.droppedChunks == |cuts| &&
      (r.budgetTokens == 1 || (r.budgetTokens > 1 && r.budgetTokens as real <= share)) &&
      share < (r.budgetTokens + 1) as real
  {
    hide PruneFrom, SplitByShare, Tokens, Rounds;
    var budget, n := Budget(maxContextTokens, maxHistoryShare), NormalizeParts(parts, |messages|);
    rounds, cuts := PruneRounds(est, messages, n, budget, NOTHING_DROPPED);
    assert [] + Concat(cuts) == Concat(cuts);
  }
}
