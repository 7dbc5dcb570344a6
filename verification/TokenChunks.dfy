// src/agents/compaction.ts: cutting a message list into chunks by token count.
// `est` is the token estimate of one message.
module TokenChunks {
  import opened JsText

  function Tokens<T>(est: T -> nat, ms: seq<T>): nat {
    if ms == [] then 0 else est(ms[0]) + Tokens(est, ms[1..])
  }

  lemma {:induction false} TokensAppend<T>(est: T -> nat, a: seq<T>, b: seq<T>)
    ensures Tokens(est, a + b) == Tokens(est, a) + Tokens(est, b)
    decreases |a|
  {
    if a == [] {
      assert a + b == b;
    } else {
      assert (a + b)[1..] == a[1..] + b;
      TokensAppend(est, a[1..], b);
    }
  }

  lemma TokensSnoc<T>(est: T -> nat, a: seq<T>, m: T)
    ensures Tokens(est, a + [m]) == Tokens(est, a) + est(m)
  {
    TokensAppend(est, a, [m]);
  }

  method EstimateMessagesTokens<T>(est: T -> nat, ms: seq<T>) returns (sum: nat)
    ensures sum == Tokens(est, ms)
  {
    sum := 0;
    for k := 0 to |ms|
      invariant sum == Tokens(est, ms[..k])
    {
      assert ms[..k + 1] == ms[..k] + [ms[k]];
      TokensSnoc(est, ms[..k], ms[k]);
      sum := sum + est(ms[k]);
    }
    assert ms[..|ms|] == ms;
  }

  // ---------------------------------------------------- chunks under a maximum

  /** The limit after the safety margin of 1.2, at least one token. */
  function EffectiveMax(maxTokens: int): (r: nat)
    ensures r == 1 || (r > 1 && 6 * r <= 5 * maxTokens)
    ensures 5 * maxTokens < 6 * (r + 1)
  {
    Max(1, 5 * maxTokens / 6)
  }

  /** A chunk is within the limit, or is a single message that cannot be cut. */
  predicate Fits<T>(est: T -> nat, limit: nat, chunk: seq<T>) {
    |chunk| == 1 || (chunk != [] && Tokens(est, chunk) <= limit)
  }

  ghost predicate Partition<T>(est: T -> nat, limit: nat, chunks: seq<seq<T>>, ms: seq<T>) {
    Concat(chunks) == ms && forall k :: 0 <= k < |chunks| ==> Fits(est, limit, chunks[k])
  }

  /** The chunk could not have taken the first message of the next one. */
  ghost predicate Full<T>(est: T -> nat, limit: nat, chunk: seq<T>, next: seq<T>) {
    next != [] && !Fits(est, limit, chunk + [next[0]])
  }

  ghost predicate Maximal<T>(est: T -> nat, limit: nat, chunks: seq<seq<T>>) {
    forall i, j :: 0 <= i && j == i + 1 && j < |chunks| ==> Full(est, limit, chunks[i], chunks[j])
  }

  ghost predicate Greedy<T>(est: T -> nat, limit: nat, chunks: seq<seq<T>>) {
    Maximal(est, limit, chunks) && forall k :: 0 <= k < |chunks| ==> Fits(est, limit, chunks[k])
  }

  /** The chunks with the one being filled, if it holds anything. */
  ghost function WithCurrent<T>(chunks: seq<seq<T>>, current: seq<T>): seq<seq<T>> {
    if current == [] then chunks else chunks + [current]
  }

  /** The limits themselves: a chunk of several messages times 1.2 is within the maximum, or is a single token; with the
      next message it would be over the maximum. */
  ghost predicate WithinMargin<T>(est: T -> nat, maxTokens: int, chunks: seq<seq<T>>) {
    (forall k :: 0 <= k < |chunks| ==>
      chunks[k] != [] &&
      (|chunks[k]| == 1 || Tokens(est, chunks[k]) <= 1 || 6 * Tokens(est, chunks[k]) <= 5 * maxTokens)) &&
    forall i, j :: 0 <= i && j == i + 1 && j < |chunks| ==>
      6 * (Tokens(est, chunks[i]) + est(chunks[j][0])) > 5 * maxTokens
  }

  /** Chunks under the effective maximum are within these limits. */
  lemma MarginKept<T>(est: T -> nat, maxTokens: int, chunks: seq<seq<T>>)
    requires Greedy(est, EffectiveMax(maxTokens), chunks)
    ensures WithinMargin(est, maxTokens, chunks)
  {
    hide Tokens, EffectiveMax;
    var limit := EffectiveMax(maxTokens);
    forall k | 0 <= k < |chunks| ensures Fits(est, limit, chunks[k]) {}
    forall i, j | 0 <= i && j == i + 1 && j < |chunks|
      ensures 6 * (Tokens(est, chunks[i]) + est(chunks[j][0])) > 5 * maxTokens
    {
      assert Full(est, limit, chunks[i], chunks[j]);
      TokensSnoc(est, chunks[i], chunks[j][0]);
    }
  }

  lemma GreedyGrows<T>(est: T -> nat, limit: nat, chunks: seq<seq<T>>, current: seq<T>, m: T)
    requires Greedy(est, limit, WithCurrent(chunks, current)) && Fits(est, limit, current + [m])
    requires current == [] && chunks != [] ==> Full(est, limit, chunks[|chunks| - 1], [m])
    ensures Greedy(est, limit, chunks + [current + [m]])
  {
    hide Fits;
    var before, after := WithCurrent(chunks, current), chunks + [current + [m]];
    forall i, j | 0 <= i && j == i + 1 && j < |after| ensures Full(est, limit, after[i], after[j]) {
      if current != [] {
        assert Full(est, limit, before[i], before[j]);
      } else if j < |chunks| {
        assert Full(est, limit, before[i], before[j]);
      } else {
        assert after[j] == [m];
      }
    }
    forall k | 0 <= k < |after| ensures Fits(est, limit, after[k]) {
      if k < |chunks| {
        assert Fits(est, limit, before[k]);
      }
    }
  }

  lemma FullByTokens<T>(est: T -> nat, limit: nat, chunk: seq<T>, m: T)
    requires chunk != [] && Tokens(est, chunk) + est(m) > limit
    ensures Full(est, limit, chunk, [m])
  {
    TokensSnoc(est, chunk, m);
  }

  /** Between two messages: what is chunked so far, greedily, and a last chunk that is closed only when over the
      limit. */
  ghost predicate Filling<T>(est: T -> nat, limit: nat, chunks: seq<seq<T>>, current: seq<T>, done: seq<T>) {
    Concat(chunks) + current == done && Greedy(est, limit, WithCurrent(chunks, current)) &&
    (current != [] ==> Tokens(est, current) <= limit) &&
    (current == [] && chunks != [] ==> chunks[|chunks| - 1] != [] && Tokens(est, chunks[|chunks| - 1]) > limit)
  }

  /** The same once room has been made for `m`. */
  ghost predicate Ready<T>(est: T -> nat, limit: nat, chunks: seq<seq<T>>, current: seq<T>, m: T, done: seq<T>) {
    Concat(chunks) + current == done && Greedy(est, limit, WithCurrent(chunks, current)) &&
    (current != [] ==> Tokens(est, current) + est(m) <= limit) &&
    (current == [] && chunks != [] ==> Full(est, limit, chunks[|chunks| - 1], [m]))
  }

  lemma MakeRoom<T>(est: T -> nat, limit: nat, chunks: seq<seq<T>>, current: seq<T>, m: T, done: seq<T>)
    requires Filling(est, limit, chunks, current, done)
    ensures
      if current != [] && Tokens(est, current) + est(m) > limit then Ready(est, limit, chunks + [current], [], m, done)
      else Ready(est, limit, chunks, current, m, done)
  {
    hide Greedy, Tokens, Full, Concat;
    if current == [] && chunks != [] {
      FullByTokens(est, limit, chunks[|chunks| - 1], m);
    } else if current != [] && Tokens(est, current) + est(m) > limit {
      FullByTokens(est, limit, current, m);
      ConcatSnoc(chunks, current);
      assert done + [] == done;
    }
  }

  lemma TakeMessage<T>(est: T -> nat, limit: nat, chunks: seq<seq<T>>, current: seq<T>, m: T, done: seq<T>)
    requires Ready(est, limit, chunks, current, m, done)
    ensures if est(m) > limit then Filling(est, limit, chunks + [current + [m]], [], done + [m])
      else Filling(est, limit, chunks, current + [m], done + [m])
  {
    hide Greedy, Tokens, Full, Concat, Fits;
    TokensSnoc(est, current, m);
    EmptyTokens(est);
    FitsWith(est, limit, current, m);
    GreedyGrows(est, limit, chunks, current, m);
    ConcatSnoc(chunks, current + [m]);
    assert Concat(chunks) + (current + [m]) == done + [m] && done + [m] + [] == done + [m];
  }

  method ChunkMessagesByMaxTokens<T>(est: T -> nat, messages: seq<T>, maxTokens: int) returns (chunks: seq<seq<T>>)
    ensures Partition(est, EffectiveMax(maxTokens), chunks, messages)
    ensures Maximal(est, EffectiveMax(maxTokens), chunks) && WithinMargin(est, maxTokens, chunks)
  {
    hide Filling, Ready, Tokens, EffectiveMax;
    chunks := [];
    var effectiveMax := EffectiveMax(maxTokens);
    var currentChunk: seq<T>, currentTokens := [], 0;
    EmptyTokens(est);
    NothingFilled(est, effectiveMax);
    for k := 0 to |messages|
      invariant currentTokens == Tokens(est, currentChunk)
      invariant Filling(est, effectiveMax, chunks, currentChunk, messages[..k])
    {
      var message := messages[k];
      var messageTokens := est(message);
      MakeRoom(est, effectiveMax, chunks, currentChunk, message, messages[..k]);
      if |currentChunk| > 0 && currentTokens + messageTokens > effectiveMax {
        chunks := chunks + [currentChunk];
        currentChunk := [];
        currentTokens := 0;
      }
      TokensSnoc(est, currentChunk, message);
      TakeMessage(est, effectiveMax, chunks, currentChunk, message, messages[..k]);
      assert messages[..k + 1] == messages[..k] + [message];
      currentChunk := currentChunk + [message];
      currentTokens := currentTokens + messageTokens;
      if messageTokens > effectiveMax {
        chunks := chunks + [currentChunk];
        currentChunk := [];
        currentTokens := 0;
      }
    }
    assert messages[..|messages|] == messages;
    FilledUp(est, effectiveMax, chunks, currentChunk, messages);
    if |currentChunk| > 0 {
      chunks := chunks + [currentChunk];
    }
    MarginKept(est, maxTokens, chunks);
  }

  lemma NothingFilled<T>(est: T -> nat, limit: nat)
    ensures Filling(est, limit, [], [], [])
  {
    EmptyTokens(est);
  }

  lemma FilledUp<T>(est: T -> nat, limit: nat, chunks: seq<seq<T>>, current: seq<T>, messages: seq<T>)
    requires Filling(est, limit, chunks, current, messages)
    ensures var all := if current == [] then chunks else chunks + [current];
      Partition(est, limit, all, messages) && Maximal(est, limit, all)
  {
    hide Tokens, Concat, Fits, Full;
    ConcatSnoc(chunks, current);
    assert Concat(chunks) + [] == Concat(chunks);
  }

  lemma FitsWith<T>(est: T -> nat, limit: nat, current: seq<T>, m: T)
    requires current != [] ==> Tokens(est, current) + est(m) <= limit
    ensures Fits(est, limit, current + [m])
  {
    TokensSnoc(est, current, m);
  }

  lemma EmptyTokens<T>(est: T -> nat)
    ensures Tokens(est, []) == 0
  {}

  lemma {:induction false} TokensPart<T>(est: T -> nat, ms: seq<T>, lo: nat, hi: nat)
    requires lo <= hi <= |ms|
    ensures Tokens(est, ms[lo..hi]) <= Tokens(est, ms)
  {
    assert ms == ms[..lo] + ms[lo..hi] + ms[hi..];
    TokensAppend(est, ms[..lo] + ms[lo..hi], ms[hi..]);
    TokensAppend(est, ms[..lo], ms[lo..hi]);
  }

  /** A greedy cutting of a suffix never needs more chunks than any cutting of the whole. */
  lemma {:induction false} GreedyStaysAhead<T>(est: T -> nat, limit: nat, greedy: seq<seq<T>>, other: seq<seq<T>>,
      ms: seq<T>, d: nat)
    requires d <= |ms| && Partition(est, limit, other, ms)
    requires Partition(est, limit, greedy, ms[d..]) && Maximal(est, limit, greedy)
    ensures |greedy| <= |other|
    decreases |other|
  {
    hide Tokens;
    if |greedy| > 0 && |other| > 0 {
      var g, q := greedy[0], other[0];
      assert ms[d..] == g + Concat(greedy[1..]);
      assert ms == q + Concat(other[1..]);
      if d + |g| < |q| && |greedy| > 1 {
        var next := greedy[1];
        assert Concat(greedy[1..]) == next + Concat(greedy[2..]);
        assert ms[d..][|g|] == next[0];
        assert Full(est, limit, greedy[0], greedy[1]);
        assert ms[d..][..|g|] == g && ms[..|q|] == q;
        assert g + [next[0]] == ms[d..d + |g| + 1] == q[d..d + |g| + 1];
        TokensPart(est, q, d, d + |g| + 1);
        assert false;
      } else if |greedy| > 1 {
        var rest := Concat(other[1..]);
        assert rest == ms[|q|..];
        assert Concat(greedy[1..]) == ms[d + |g|..] == rest[d + |g| - |q|..];
        TailPartition(est, limit, greedy);
        TailPartition(est, limit, other);
        GreedyStaysAhead(est, limit, greedy[1..], other[1..], rest, d + |g| - |q|);
      }
    }
  }

  lemma TailPartition<T>(est: T -> nat, limit: nat, chunks: seq<seq<T>>)
    requires chunks != [] && forall k :: 0 <= k < |chunks| ==> Fits(est, limit, chunks[k])
    ensures Partition(est, limit, chunks[1..], Concat(chunks[1..]))
    ensures Maximal(est, limit, chunks) ==> Maximal(est, limit, chunks[1..])
  {
    hide Fits;
  }

  /** No cutting of the same messages under the same limit has fewer chunks than the greedy one. */
  lemma {:induction false} GreedyIsOptimal<T>(est: T -> nat, limit: nat, greedy: seq<seq<T>>, other: seq<seq<T>>,
      ms: seq<T>)
    requires Partition(est, limit, greedy, ms) && Maximal(est, limit, greedy)
    requires Partition(est, limit, other, ms)
    ensures |greedy| <= |other|
  {
    assert ms[0..] == ms;
    GreedyStaysAhead(est, limit, greedy, other, ms, 0);
  }

  /** The contract of the chunking loop leaves no choice: two greedy cuttings are the same. */
  lemma {:induction false} GreedyIsUnique<T>(est: T -> nat, limit: nat, a: seq<seq<T>>, b: seq<seq<T>>, ms: seq<T>)
    requires Partition(est, limit, a, ms) && Maximal(est, limit, a)
    requires Partition(est, limit, b, ms) && Maximal(est, limit, b)
    ensures a == b
    decreases |a|
  {
    GreedyIsOptimal(est, limit, a, b, ms);
    GreedyIsOptimal(est, limit, b, a, ms);
    if a == [] {
    } else {
      assert ms == a[0] + Concat(a[1..]) == b[0] + Concat(b[1..]);
      HeadNotShorter(est, limit, a, b, ms);
      HeadNotShorter(est, limit, b, a, ms);
      assert a[0] == ms[..|a[0]|] == b[0];
      assert Concat(a[1..]) == ms[|a[0]|..] == Concat(b[1..]);
      TailPartition(est, limit, a);
      TailPartition(est, limit, b);
      GreedyIsUnique(est, limit, a[1..], b[1..], Concat(a[1..]));
      assert a == [a[0]] + a[1..] && b == [b[0]] + b[1..];
    }
  }

  lemma HeadNotShorter<T>(est: T -> nat, limit: nat, a: seq<seq<T>>, b: seq<seq<T>>, ms: seq<T>)
    requires a != [] && b != []
    requires Partition(est, limit, a, ms) && Maximal(est, limit, a) && Partition(est, limit, b, ms)
    ensures |b[0]| <= |a[0]|
  {
    hide Tokens;
    assert ms == a[0] + Concat(a[1..]) == b[0] + Concat(b[1..]);
    if |a[0]| < |b[0]| {
      assert Concat(a[1..]) != [];
      assert Concat(a[1..]) == a[1] + Concat(a[2..]);
      assert ms[|a[0]|] == a[1][0];
      assert Full(est, limit, a[0], a[1]);
      assert ms[..|a[0]|] == a[0] && ms[..|b[0]|] == b[0];
      assert a[0] + [a[1][0]] == ms[..|a[0]| + 1] == b[0][0..|a[0]| + 1];
      TokensPart(est, b[0], 0, |a[0]| + 1);
      assert false;
    }
  }

  // --------------------------------------------------------- chunks by shares

  /** A JavaScript number used as a count of parts. */
  datatype Parts = NotFinite | Finite(value: real)

  function NormalizeParts(parts: Parts, messageCount: nat): (n: nat)
    ensures 1 <= n <= Max(1, messageCount)
    ensures n > 1 ==> parts.Finite? && n as real <= parts.value
    ensures n == Max(1, messageCount) || parts.NotFinite? || parts.value < (n + 1) as real
  {
    if parts.NotFinite? || parts.value <= 1.0 then 1
    else Min(Max(1, parts.value.Floor), Max(1, messageCount))
  }

  /** Whether a chunk with `held` tokens is closed before a message of `size` tokens, when each of `n` parts
      should hold an equal share of `total`. */
  predicate OverShare(held: nat, size: nat, n: nat, total: nat) {
    n * (held + size) > total
  }

  /** The loop over messages, from its state on. */
  function ShareChunks<T>(est: T -> nat, rest: seq<T>, chunks: seq<seq<T>>, current: seq<T>, n: nat, total: nat):
      seq<seq<T>> {
    if rest == [] then (if current == [] then chunks else chunks + [current])
    else if |chunks| + 1 < n && current != [] && OverShare(Tokens(est, current), est(rest[0]), n, total) then
      ShareChunks(est, rest[1..], chunks + [current], [rest[0]], n, total)
    else ShareChunks(est, rest[1..], chunks, current + [rest[0]], n, total)
  }

  function SplitByShare<T>(est: T -> nat, messages: seq<T>, parts: Parts): seq<seq<T>> {
    if messages == [] then []
    else if NormalizeParts(parts, |messages|) <= 1 then [messages]
    else ShareChunks(est, messages, [], [], NormalizeParts(parts, |messages|), Tokens(est, messages))
  }

  method SplitMessagesByTokenShare<T>(est: T -> nat, messages: seq<T>, parts: Parts) returns (chunks: seq<seq<T>>)
    ensures chunks == SplitByShare(est, messages, parts)
  {
    if |messages| == 0 {
      return [];
    }
    var normalizedParts := NormalizeParts(parts, |messages|);
    if normalizedParts <= 1 {
      return [messages];
    }
    var totalTokens := EstimateMessagesTokens(est, messages);
    chunks := [];
    var current: seq<T>, currentTokens := [], 0;
    assert messages[0..] == messages;
    for k := 0 to |messages|
      invariant currentTokens == Tokens(est, current)
      invariant ShareChunks(est, messages[k..], chunks, current, normalizedParts, totalTokens) ==
        SplitByShare(est, messages, parts)
    {
      var message := messages[k];
      var messageTokens := est(message);
      assert messages[k..][0] == message && messages[k..][1..] == messages[k + 1..];
      if |chunks| < normalizedParts - 1 && |current| > 0 &&
        OverShare(currentTokens, messageTokens, normalizedParts, totalTokens) {
        chunks := chunks + [current];
        current := [];
        currentTokens := 0;
        assert [] + [message] == [message];
      }
      TokensSnoc(est, current, message);
      current := current + [message];
      currentTokens := currentTokens + messageTokens;
    }
    if |current| > 0 {
      chunks := chunks + [current];
    }
  }

  /** The chunk is closed because the first message of the next one would exceed the share. */
  ghost predicate ClosedByShare<T>(est: T -> nat, n: nat, total: nat, chunk: seq<T>, next: seq<T>) {
    next != [] && n * (Tokens(est, chunk) + est(next[0])) > total
  }

  ghost predicate InShare<T>(est: T -> nat, n: nat, total: nat, chunk: seq<T>) {
    |chunk| == 1 || n * Tokens(est, chunk) <= total
  }

  /** Every part but the last position is within its share or a single message, and closes only when it has to. */
  ghost predicate Shares<T>(est: T -> nat, chunks: seq<seq<T>>, n: nat, total: nat) {
    |chunks| <= n &&
    (forall k :: 0 <= k < |chunks| ==> chunks[k] != [] && (k + 1 < n ==> InShare(est, n, total, chunks[k]))) &&
    forall i, j :: 0 <= i && j == i + 1 && j < |chunks| ==> ClosedByShare(est, n, total, chunks[i], chunks[j])
  }

  lemma InShareWith<T>(est: T -> nat, current: seq<T>, m: T, n: nat, total: nat)
    requires n >= 1
    requires current != [] ==> !OverShare(Tokens(est, current), est(m), n, total)
    ensures InShare(est, n, total, current + [m])
  {
    TokensSnoc(est, current, m);
  }

  lemma SharesGrow<T>(est: T -> nat, chunks: seq<seq<T>>, current: seq<T>, m: T, n: nat, total: nat)
    requires n >= 1 && Shares(est, WithCurrent(chunks, current), n, total) && |chunks| < n
    requires current != [] && |chunks| + 1 < n ==> !OverShare(Tokens(est, current), est(m), n, total)
    requires current == [] && chunks != [] ==> ClosedByShare(est, n, total, chunks[|chunks| - 1], [m])
    ensures Shares(est, chunks + [current + [m]], n, total)
  {
    hide Tokens, OverShare, InShare;
    if |chunks| + 1 < n {
      InShareWith(est, current, m, n, total);
    }
    ClosedGrow(est, chunks, current, m, n, total);
    hide ClosedByShare;
    var before, after := WithCurrent(chunks, current), chunks + [current + [m]];
    forall k | 0 <= k < |after| ensures after[k] != [] && (k + 1 < n ==> InShare(est, n, total, after[k])) {
      if k < |chunks| {
        assert after[k] == before[k];
      }
    }
  }

  lemma ClosedGrow<T>(est: T -> nat, chunks: seq<seq<T>>, current: seq<T>, m: T, n: nat, total: nat)
    requires var before := WithCurrent(chunks, current);
      forall i, j :: 0 <= i && j == i + 1 && j < |before| ==> ClosedByShare(est, n, total, before[i], before[j])
    requires current == [] && chunks != [] ==> ClosedByShare(est, n, total, chunks[|chunks| - 1], [m])
    ensures var after := chunks + [current + [m]];
      forall i, j :: 0 <= i && j == i + 1 && j < |after| ==> ClosedByShare(est, n, total, after[i], after[j])
  {
    hide Tokens, OverShare;
    var before, after := WithCurrent(chunks, current), chunks + [current + [m]];
    forall i, j | 0 <= i && j == i + 1 && j < |after| ensures ClosedByShare(est, n, total, after[i], after[j]) {
      if j < |before| {
        assert ClosedByShare(est, n, total, before[i], before[j]);
      } else {
        assert after[j] == [m];
      }
    }
  }

  lemma FirstOfRest<T>(done: seq<T>, current: seq<T>, rest: seq<T>)
    requires rest != []
    ensures done + current + rest == done + (current + [rest[0]]) + rest[1..]
    ensures done + current + rest == (done + current) + [rest[0]] + rest[1..]
  {}

  lemma {:induction false} ShareChunksLaw<T>(est: T -> nat, rest: seq<T>, chunks: seq<seq<T>>, current: seq<T>, n: nat,
      total: nat)
    requires n >= 2 && (rest != [] || current != []) && (current == [] ==> chunks == [])
    requires Shares(est, WithCurrent(chunks, current), n, total)
    ensures var r := ShareChunks(est, rest, chunks, current, n, total);
      Shares(est, r, n, total) && Concat(r) == Concat(chunks) + current + rest
    decreases |rest|
  {
    hide Tokens, Shares, Concat;
    ConcatSnoc(chunks, current);
    if rest == [] {
      assert Concat(chunks) + current + rest == Concat(chunks) + current;
    } else {
      var m := rest[0];
      FirstOfRest(Concat(chunks), current, rest);
      ShareCount(est, WithCurrent(chunks, current), n, total);
      if |chunks| + 1 < n && current != [] && OverShare(Tokens(est, current), est(m), n, total) {
        SharesGrow(est, chunks + [current], [], m, n, total);
        assert [] + [m] == [m];
        ShareChunksLaw(est, rest[1..], chunks + [current], [m], n, total);
      } else {
        SharesGrow(est, chunks, current, m, n, total);
        ShareChunksLaw(est, rest[1..], chunks, current + [m], n, total);
      }
    }
  }

  lemma ShareCount<T>(est: T -> nat, chunks: seq<seq<T>>, n: nat, total: nat)
    requires Shares(est, chunks, n, total)
    ensures |chunks| <= n
  {}

  /** Splitting keeps every message in order, in at most the requested number of non-empty parts. */
  lemma {:induction false} SplitLaw<T>(est: T -> nat, messages: seq<T>, parts: Parts)
    ensures var r := SplitByShare(est, messages, parts);
      var n := NormalizeParts(parts, |messages|);
      Concat(r) == messages && |r| <= n && (forall k :: 0 <= k < |r| ==> r[k] != []) &&
      (n >= 2 ==> Shares(est, r, n, Tokens(est, messages)))
  {
    hide Tokens;
    var n := NormalizeParts(parts, |messages|);
    if messages != [] {
      if n <= 1 {
        ConcatSingle(messages);
      } else {
        ShareChunksLaw(est, messages, [], [], n, Tokens(est, messages));
        assert Concat<T>([]) + [] + messages == messages;
      }
    }
  }

  /** The same for what is left of a split, with room for so many more parts. */
  ghost predicate SharesLeft<T>(est: T -> nat, chunks: seq<seq<T>>, n: nat, room: nat, total: nat) {
    |chunks| <= room &&
    (forall k :: 0 <= k < |chunks| ==> chunks[k] != [] && (k + 1 < room ==> InShare(est, n, total, chunks[k]))) &&
    forall i, j :: 0 <= i && j == i + 1 && j < |chunks| ==> ClosedByShare(est, n, total, chunks[i], chunks[j])
  }

  lemma SharesTail<T>(est: T -> nat, chunks: seq<seq<T>>, n: nat, room: nat, total: nat)
    requires chunks != [] && SharesLeft(est, chunks, n, room, total)
    ensures room > 0 && SharesLeft(est, chunks[1..], n, room - 1, total)
  {
    hide InShare, ClosedByShare;
  }

  lemma MoreIsMore(n: nat, less: nat, more: nat)
    requires less <= more
    ensures n * less <= n * more
  {}

  lemma ShareNotShorter<T>(est: T -> nat, a: seq<seq<T>>, b: seq<seq<T>>, n: nat, room: nat, total: nat)
    requires a != [] && b != [] && Concat(a) == Concat(b)
    requires SharesLeft(est, a, n, room, total) && SharesLeft(est, b, n, room, total)
    ensures |b[0]| <= |a[0]|
  {
    hide Tokens;
    var ms := Concat(a);
    assert ms == a[0] + Concat(a[1..]) == b[0] + Concat(b[1..]);
    if |a[0]| < |b[0]| {
      assert Concat(a[1..]) != [];
      assert Concat(a[1..]) == a[1] + Concat(a[2..]);
      var x := a[1][0];
      assert ms[|a[0]|] == x && ClosedByShare(est, n, total, a[0], a[1]) && InShare(est, n, total, b[0]);
      assert ms[..|a[0]|] == a[0] && ms[..|b[0]|] == b[0];
      assert a[0] + [x] == ms[..|a[0]| + 1] == b[0][0..|a[0]| + 1];
      TokensSnoc(est, a[0], x);
      TokensPart(est, b[0], 0, |a[0]| + 1);
      MoreIsMore(n, Tokens(est, a[0] + [x]), Tokens(est, b[0]));
      assert false;
    }
  }

  lemma {:induction false} SharesLeftUnique<T>(est: T -> nat, a: seq<seq<T>>, b: seq<seq<T>>, n: nat, room: nat,
      total: nat)
    requires Concat(a) == Concat(b)
    requires SharesLeft(est, a, n, room, total) && SharesLeft(est, b, n, room, total)
    ensures a == b
    decreases |a|
  {
    hide Tokens, InShare, ClosedByShare;
    if a == [] || b == [] {
    } else {
      var ms := Concat(a);
      ShareNotShorter(est, a, b, n, room, total);
      ShareNotShorter(est, b, a, n, room, total);
      assert ms == a[0] + Concat(a[1..]) == b[0] + Concat(b[1..]);
      assert a[0] == ms[..|a[0]|] == b[0] && Concat(a[1..]) == ms[|a[0]|..] == Concat(b[1..]);
      SharesTail(est, a, n, room, total);
      SharesTail(est, b, n, room, total);
      SharesLeftUnique(est, a[1..], b[1..], n, room - 1, total);
      assert a == [a[0]] + a[1..] && b == [b[0]] + b[1..];
    }
  }

  /** Order, number of parts, shares and the rule for closing a part leave no choice: they determine the split. */
  lemma SplitIsUnique<T>(est: T -> nat, messages: seq<T>, parts: Parts, other: seq<seq<T>>)
    requires var n := NormalizeParts(parts, |messages|);
      n >= 2 && Concat(other) == messages && Shares(est, other, n, Tokens(est, messages))
    ensures other == SplitByShare(est, messages, parts)
  {
    hide Tokens, InShare, ClosedByShare, SplitByShare;
    var n, total := NormalizeParts(parts, |messages|), Tokens(est, messages);
    SplitLaw(est, messages, parts);
    SharesLeftUnique(est, other, SplitByShare(est, messages, parts), n, n, total);
  }

  /** Two or more messages of positive total, split into two or more parts, always give at least two chunks. */
  lemma {:induction false} SplitMakesProgress<T>(est: T -> nat, messages: seq<T>, parts: Parts)
    requires |messages| >= 2 && Tokens(est, messages) > 0 && NormalizeParts(parts, |messages|) >= 2
    ensures |SplitByShare(est, messages, parts)| >= 2
  {
    hide Tokens;
    var r := SplitByShare(est, messages, parts);
    var n, total := NormalizeParts(parts, |messages|), Tokens(est, messages);
    SplitLaw(est, messages, parts);
    if |r| == 1 {
      ConcatSingle(r[0]);
      assert InShare(est, n, total, r[0]);
      TimesAtLeastTwo(n, total);
    }
  }

  lemma TimesAtLeastTwo(n: nat, total: nat)
    requires n >= 2 && total > 0
    ensures n * total > total
  {}
}
