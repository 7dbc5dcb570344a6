// src/agents/bash-process-registry.ts and chunkString of src/agents/bash-tools.shared.ts:
// capped buffers over the output streams of a process.
module ProcessOutputModel {
  import opened JsText

  /** One unit of a JavaScript string: lengths and slices count these. */
  newtype CodeUnit = n: int | 0 <= n < 0x1_0000

  type Text = seq<CodeUnit>

  datatype StreamName = Stdout | Stderr

  const DEFAULT_PENDING_OUTPUT_CHARS := 30000
  const TAIL_CHARS := 2000

  /** The output fields of a session at one moment. */
  datatype Output = Output(
    maxOutputChars: nat, pendingMaxOutputChars: Option<nat>, totalOutputChars: nat,
    pendingStdout: seq<Text>, pendingStderr: seq<Text>, pendingStdoutChars: nat, pendingStderrChars: nat,
    aggregated: Text, tail: Text, truncated: bool)

  function PendingCap(o: Output): nat {
    Min(if o.pendingMaxOutputChars.Some? then o.pendingMaxOutputChars.value else DEFAULT_PENDING_OUTPUT_CHARS,
      o.maxOutputChars)
  }

  /** A buffer may hold as much as was asked for, or 30000 units, but no more than the aggregate. */
  lemma PendingCapExactly(o: Output)
    ensures var asked := if o.pendingMaxOutputChars.None? then 30000 else o.pendingMaxOutputChars.value;
      PendingCap(o) <= asked && PendingCap(o) <= o.maxOutputChars &&
      (PendingCap(o) == asked || PendingCap(o) == o.maxOutputChars)
  {}

  // ----------------------------------------------------------- capping one buffer

  /** Whole chunks are dropped from the front while enough is left without them. */
  function DropHeads(buffer: seq<Text>, chars: int, cap: nat): (seq<Text>, int) {
    if buffer != [] && chars - |buffer[0]| >= cap then DropHeads(buffer[1..], chars - |buffer[0]|, cap)
      else (buffer, chars)
  }

  function Capped(buffer: seq<Text>, chars: int, cap: nat): (seq<Text>, int) {
    if chars <= cap then (buffer, chars)
    else if buffer != [] && buffer[|buffer| - 1] != [] && |buffer[|buffer| - 1]| >= cap then
      ([Suffix(buffer[|buffer| - 1], cap)], cap)
    else
      var (rest, left) := DropHeads(buffer, chars, cap);
      if rest != [] && left > cap && left - cap <= |rest[0]| then ([rest[0][left - cap..]] + rest[1..], cap)
        else (rest, left)
  }

  lemma {:induction false} DropHeadsLaw(buffer: seq<Text>, chars: nat, cap: nat)
    requires chars == |Concat(buffer)| && chars >= cap
    ensures var (rest, left) := DropHeads(buffer, chars, cap);
      left == |Concat(rest)| >= cap && Concat(rest) == Suffix(Concat(buffer), left) &&
        (rest != [] ==> left - |rest[0]| < cap)
    decreases |buffer|
  {
    if buffer != [] && chars - |buffer[0]| >= cap {
      DropHeadsLaw(buffer[1..], chars - |buffer[0]|, cap);
    }
  }

  lemma CappedByLast(buffer: seq<Text>, cap: nat)
    requires buffer != [] && |buffer[|buffer| - 1]| >= cap
    ensures Concat([Suffix(buffer[|buffer| - 1], cap)]) == Suffix(Concat(buffer), cap)
  {
    hide Concat;
    var last := buffer[|buffer| - 1];
    assert buffer == buffer[..|buffer| - 1] + [last];
    ConcatAppend(buffer[..|buffer| - 1], [last]);
    ConcatSingle(last);
    ConcatSingle(Suffix(last, cap));
  }

  lemma CutHead(buffer: seq<Text>, left: nat, cap: nat)
    requires buffer != [] && left == |Concat(buffer)| > cap && left - |buffer[0]| < cap
    ensures left - cap <= |buffer[0]|
    ensures Concat([buffer[0][left - cap..]] + buffer[1..]) == Suffix(Concat(buffer), cap)
  {
    var cut := [buffer[0][left - cap..]] + buffer[1..];
    assert cut[1..] == buffer[1..];
  }

  /** A capped buffer holds exactly the last `cap` characters, and its count is right. */
  lemma {:induction false} CappedLaw(buffer: seq<Text>, chars: nat, cap: nat)
    requires chars == |Concat(buffer)|
    ensures var (r, n) := Capped(buffer, chars, cap);
      Concat(r) == Suffix(Concat(buffer), cap) && n == |Concat(r)|
  {
    hide Concat, DropHeads, Suffix;
    if chars > cap {
      SomeChunk(buffer);
      if buffer[|buffer| - 1] != [] && |buffer[|buffer| - 1]| >= cap {
        CappedByLast(buffer, cap);
      } else {
        DropHeadsLaw(buffer, chars, cap);
        var (rest, left) := DropHeads(buffer, chars, cap);
        SuffixTwice(Concat(buffer), left, cap);
        if left > cap {
          SomeChunk(rest);
          CutHead(rest, left, cap);
        }
      }
    } else {
      WholeSuffix(Concat(buffer), cap);
    }
  }

  lemma SuffixTwice(s: Text, n: nat, m: nat)
    requires m <= n
    ensures Suffix(Suffix(s, n), m) == Suffix(s, m)
  {}

  lemma WholeSuffix(s: Text, n: nat)
    requires |s| <= n
    ensures Suffix(s, n) == s
  {}

  lemma SomeChunk(buffer: seq<Text>)
    requires |Concat(buffer)| > 0
    ensures buffer != []
  {}

  method CapPendingBuffer(buffer: seq<Text>, chars: nat, cap: nat) returns (capped: seq<Text>, n: int)
    requires chars == |Concat(buffer)|
    ensures (capped, n) == Capped(buffer, chars, cap)
  {
    hide Concat, Suffix;
    if chars <= cap {
      return buffer, chars;
    }
    if |buffer| > 0 && buffer[|buffer| - 1] != [] && |buffer[|buffer| - 1]| >= cap {
      return [Suffix(buffer[|buffer| - 1], cap)], cap;
    }
    DropHeadsLaw(buffer, chars, cap);
    capped, n := buffer, chars;
    while |capped| > 0 && n - |capped[0]| >= cap
      invariant DropHeads(capped, n, cap) == DropHeads(buffer, chars, cap)
      decreases |capped|
    {
      n := n - |capped[0]|;
      capped := capped[1..];
    }
    if |capped| > 0 && n > cap {
      var overflow := n - cap;
      capped := [capped[0][overflow..]] + capped[1..];
      n := cap;
    }
  }

  /** Pushes a chunk on a buffer and caps it. */
  method PushCapped(buffer: seq<Text>, bufferChars: nat, chunk: Text, cap: nat) returns (capped: seq<Text>, chars: nat)
    requires bufferChars == |Concat(buffer)|
    ensures (capped, chars) == Pushed(buffer, bufferChars, chunk, cap) && chars == |Concat(capped)|
  {
    ConcatSnoc(buffer, chunk);
    var pendingChars := bufferChars + |chunk|;
    CappedLaw(buffer + [chunk], pendingChars, cap);
    var n;
    capped, n := CapPendingBuffer(buffer + [chunk], pendingChars, cap);
    chars := n;
  }

  // --------------------------------------------------------------- the operations

  /** The new chunk on a stream's buffer, and the buffer's count. */
  function Pushed(buffer: seq<Text>, chars: nat, chunk: Text, cap: nat): (seq<Text>, nat) {
    var (capped, n) := Capped(buffer + [chunk], chars + |chunk|, cap);
    (capped, Max(0, n))
  }

  /** The fields about both streams together; `over` says whether the stream's buffer had to be cut. */
  function Aggregated(o: Output, chunk: Text, over: bool): Output {
    var aggregated := Suffix(o.aggregated + chunk, o.maxOutputChars);
    o.(totalOutputChars := o.totalOutputChars + |chunk|, aggregated := aggregated,
      tail := Suffix(aggregated, TAIL_CHARS),
       truncated := o.truncated || over || |aggregated| < |o.aggregated| + |chunk|)
  }

  function Append(o: Output, stream: StreamName, chunk: Text): Output {
    var cap := PendingCap(o);
    match stream
    case Stdout =>
      var (pending, chars) := Pushed(o.pendingStdout, o.pendingStdoutChars, chunk, cap);
      Aggregated(o.(pendingStdout := pending, pendingStdoutChars := chars), chunk, o.pendingStdoutChars + |chunk| > cap)
    case Stderr =>
      var (pending, chars) := Pushed(o.pendingStderr, o.pendingStderrChars, chunk, cap);
      Aggregated(o.(pendingStderr := pending, pendingStderrChars := chars), chunk, o.pendingStderrChars + |chunk| > cap)
  }

  function Drained(o: Output): Output {
    o.(pendingStdout := [], pendingStderr := [], pendingStdoutChars := 0, pendingStderrChars := 0)
  }

  function AppendAll(o: Output, stream: StreamName, pieces: seq<Text>): Output
    decreases |pieces|
  {
    if pieces == [] then o else AppendAll(Append(o, stream, pieces[0]), stream, pieces[1..])
  }

  /** The output fields of a session, updated in place. */
  class ProcessSession {
    const id: string
    const maxOutputChars: nat
    const pendingMaxOutputChars: Option<nat>
    var totalOutputChars: nat
    var pendingStdout: seq<Text>
    var pendingStderr: seq<Text>
    var pendingStdoutChars: nat
    var pendingStderrChars: nat
    var aggregated: Text
    var tail: Text
    var truncated: bool
    var exited: bool
    var exitCode: Option<int>
    var exitSignal: Option<string>
    var backgrounded: bool

    constructor (id: string, maxOutputChars: nat, pendingMaxOutputChars: Option<nat>)
      ensures View() == Fresh(maxOutputChars, pendingMaxOutputChars) && this.id == id && !exited && !backgrounded
    {
      this.id, this.maxOutputChars, this.pendingMaxOutputChars := id, maxOutputChars, pendingMaxOutputChars;
      totalOutputChars, pendingStdout, pendingStderr, pendingStdoutChars, pendingStderrChars := 0, [], [], 0, 0;
      aggregated, tail, truncated, exited, backgrounded := [], [], false, false, false;
      exitCode, exitSignal := None, None;
    }

    function View(): Output
      reads this
    {
      Output(maxOutputChars, pendingMaxOutputChars, totalOutputChars, pendingStdout, pendingStderr,
             pendingStdoutChars, pendingStderrChars, aggregated, tail, truncated)
    }

    /** Both pending counts are right. */
    ghost predicate Counted()
      reads this
    {
      pendingStdoutChars == |Concat(pendingStdout)| && pendingStderrChars == |Concat(pendingStderr)|
    }

    method AddToAggregate(chunk: Text, over: bool)
      modifies this`totalOutputChars, this`aggregated, this`tail, this`truncated
      ensures View() == Aggregated(old(View()), chunk, over)
    {
      hide Suffix;
      if over {
        truncated := true;
      }
      totalOutputChars := totalOutputChars + |chunk|;
      var trimmed := Suffix(aggregated + chunk, maxOutputChars);
      truncated := truncated || |trimmed| < |aggregated| + |chunk|;
      aggregated := trimmed;
      tail := Suffix(aggregated, TAIL_CHARS);
    }

    method AppendOutput(stream: StreamName, chunk: Text)
      requires Counted()
      modifies this`pendingStdout, this`pendingStderr, this`pendingStdoutChars, this`pendingStderrChars,
               this`totalOutputChars, this`aggregated, this`tail, this`truncated
      ensures View() == Append(old(View()), stream, chunk) && Counted()
    {
      hide Concat, Pushed, Aggregated;
      var buffer := if stream == Stdout then pendingStdout else pendingStderr;
      var bufferChars := if stream == Stdout then pendingStdoutChars else pendingStderrChars;
      var pendingCap := Min(if pendingMaxOutputChars.Some? then pendingMaxOutputChars.value
        else DEFAULT_PENDING_OUTPUT_CHARS, maxOutputChars);
      var capped, pendingChars := PushCapped(buffer, bufferChars, chunk, pendingCap);
      if stream == Stdout {
        pendingStdout, pendingStdoutChars := capped, pendingChars;
      } else {
        pendingStderr, pendingStderrChars := capped, pendingChars;
      }
      AddToAggregate(chunk, bufferChars + |chunk| > pendingCap);
    }

    method DrainSession() returns (stdout: Text, stderr: Text)
      modifies this`pendingStdout, this`pendingStderr, this`pendingStdoutChars, this`pendingStderrChars
      ensures stdout == Concat(old(pendingStdout)) && stderr == Concat(old(pendingStderr))
      ensures View() == Drained(old(View())) && Counted()
    {
      stdout, stderr := Concat(pendingStdout), Concat(pendingStderr);
      pendingStdout, pendingStderr, pendingStdoutChars, pendingStderrChars := [], [], 0, 0;
    }

    /** Appends a text piece by piece, as its reader does. */
    method AppendPieces(stream: StreamName, pieces: seq<Text>)
      requires Counted()
      modifies this
      ensures View() == AppendAll(old(View()), stream, pieces) && Counted()
    {
      hide Append, Counted;
      assert pieces[0..] == pieces;
      for k := 0 to |pieces|
        invariant AppendAll(View(), stream, pieces[k..]) == AppendAll(old(View()), stream, pieces)
        invariant Counted()
      {
        assert pieces[k..][0] == pieces[k] && pieces[k..][1..] == pieces[k + 1..];
        AppendOutput(stream, pieces[k]);
      }
    }
  }

  function Fresh(maxOutputChars: nat, pendingMaxOutputChars: Option<nat>): Output {
    Output(maxOutputChars, pendingMaxOutputChars, 0, [], [], 0, 0, [], [], false)
  }

  // ---------------------------------------------------------------------- history

  /** What happened to one stream: all of it, what drains took, and what came since the last drain. */
  datatype StreamHistory = StreamHistory(full: Text, drained: Text, recent: Text)

  /** Everything that happened to a session's output; `all` is both streams interleaved. */
  datatype History = History(stdout: StreamHistory, stderr: StreamHistory, all: Text)

  const NO_HISTORY := History(StreamHistory([], [], []), StreamHistory([], [], []), [])

  function Extended(s: StreamHistory, chunk: Text): StreamHistory {
    s.(full := s.full + chunk, recent := s.recent + chunk)
  }

  function Recorded(h: History, stream: StreamName, chunk: Text): History {
    match stream
    case Stdout => h.(stdout := Extended(h.stdout, chunk), all := h.all + chunk)
    case Stderr => h.(stderr := Extended(h.stderr, chunk), all := h.all + chunk)
  }

  function Emptied(s: StreamHistory, taken: Text): StreamHistory {
    s.(drained := s.drained + taken, recent := [])
  }

  /** A drain takes what is pending. */
  function DrainRecorded(h: History, o: Output): History {
    h.(stdout := Emptied(h.stdout, Concat(o.pendingStdout)), stderr := Emptied(h.stderr, Concat(o.pendingStderr)))
  }

  /** Some of the stream is in no drain and not pending any more. */
  ghost predicate StreamLost(s: StreamHistory, cap: nat) {
    |s.drained| + |Suffix(s.recent, cap)| < |s.full|
  }

  /** The pending text is the last `cap` characters since the last drain, and with the drains it is the whole stream
      unless some of that is lost. */
  ghost predicate FaithfulStream(pending: seq<Text>, chars: nat, s: StreamHistory, cap: nat) {
    Concat(pending) == Suffix(s.recent, cap) && chars == |Concat(pending)| && |s.drained| + |s.recent| <= |s.full| &&
    (StreamLost(s, cap) || s.drained + Concat(pending) == s.full)
  }

  /** The aggregate is the last `max` characters of everything. */
  ghost predicate FaithfulAggregate(o: Output, all: Text) {
    o.aggregated == Suffix(all, o.maxOutputChars) && o.tail == Suffix(o.aggregated, TAIL_CHARS) &&
      o.totalOutputChars == |all|
  }

  ghost predicate Lost(h: History, cap: nat, max: nat) {
    StreamLost(h.stdout, cap) || StreamLost(h.stderr, cap) || |h.all| > max
  }

  /** The session's buffers are the promised views of its history, and the flag says whether anything was lost. */
  ghost predicate Faithful(o: Output, h: History) {
    FaithfulStream(o.pendingStdout, o.pendingStdoutChars, h.stdout, PendingCap(o)) &&
    FaithfulStream(o.pendingStderr, o.pendingStderrChars, h.stderr, PendingCap(o)) &&
    FaithfulAggregate(o, h.all) && (o.truncated <==> Lost(h, PendingCap(o), o.maxOutputChars))
  }

  lemma SuffixOfSuffix(s: Text, chunk: Text, n: nat)
    ensures Suffix(Suffix(s, n) + chunk, n) == Suffix(s + chunk, n)
  {}

  lemma StreamAppends(pending: seq<Text>, chars: nat, s: StreamHistory, cap: nat, chunk: Text)
    requires FaithfulStream(pending, chars, s, cap)
    ensures var (capped, n) := Pushed(pending, chars, chunk, cap);
      FaithfulStream(capped, n, Extended(s, chunk), cap)
    ensures StreamLost(Extended(s, chunk), cap) <==> StreamLost(s, cap) || chars + |chunk| > cap
  {
    ConcatSnoc(pending, chunk);
    CappedLaw(pending + [chunk], chars + |chunk|, cap);
    SuffixOfSuffix(s.recent, chunk, cap);
    hide Concat, Capped;
    if !StreamLost(s, cap) {
      assert Suffix(s.recent, cap) == s.recent;
      assert s.drained + (s.recent + chunk) == s.full + chunk;
    }
  }

  lemma AggregateAppends(o: Output, all: Text, chunk: Text, over: bool)
    requires FaithfulAggregate(o, all)
    ensures FaithfulAggregate(Aggregated(o, chunk, over), all + chunk)
    ensures (|all| > o.maxOutputChars ==> o.truncated) ==>
      (Aggregated(o, chunk, over).truncated <==> o.truncated || over || |all + chunk| > o.maxOutputChars)
  {
    SuffixOfSuffix(all, chunk, o.maxOutputChars);
  }

  lemma AppendFaithful(o: Output, h: History, stream: StreamName, chunk: Text)
    requires Faithful(o, h)
    ensures Faithful(Append(o, stream, chunk), Recorded(h, stream, chunk))
  {
    hide Pushed, FaithfulStream, StreamLost, FaithfulAggregate, Suffix, Concat;
    var cap := PendingCap(o);
    match stream
    case Stdout =>
      StreamAppends(o.pendingStdout, o.pendingStdoutChars, h.stdout, cap, chunk);
      var (pending, chars) := Pushed(o.pendingStdout, o.pendingStdoutChars, chunk, cap);
      var mid := o.(pendingStdout := pending, pendingStdoutChars := chars);
      AggregateOnly(o, mid, h.all);
      AggregateAppends(mid, h.all, chunk, o.pendingStdoutChars + |chunk| > cap);
    case Stderr =>
      StreamAppends(o.pendingStderr, o.pendingStderrChars, h.stderr, cap, chunk);
      var (pending, chars) := Pushed(o.pendingStderr, o.pendingStderrChars, chunk, cap);
      var mid := o.(pendingStderr := pending, pendingStderrChars := chars);
      AggregateOnly(o, mid, h.all);
      AggregateAppends(mid, h.all, chunk, o.pendingStderrChars + |chunk| > cap);
  }

  lemma AggregateOnly(o: Output, p: Output, all: Text)
    requires FaithfulAggregate(o, all) && p.aggregated == o.aggregated && p.tail == o.tail
    requires p.totalOutputChars == o.totalOutputChars && p.maxOutputChars == o.maxOutputChars
    ensures FaithfulAggregate(p, all)
  {}

  lemma StreamDrains(pending: seq<Text>, chars: nat, s: StreamHistory, cap: nat)
    requires FaithfulStream(pending, chars, s, cap)
    ensures FaithfulStream([], 0, Emptied(s, Concat(pending)), cap)
    ensures StreamLost(Emptied(s, Concat(pending)), cap) <==> StreamLost(s, cap)
  {}

  lemma DrainFaithful(o: Output, h: History)
    requires Faithful(o, h)
    ensures Faithful(Drained(o), DrainRecorded(h, o))
  {
    StreamDrains(o.pendingStdout, o.pendingStdoutChars, h.stdout, PendingCap(o));
    StreamDrains(o.pendingStderr, o.pendingStderrChars, h.stderr, PendingCap(o));
    hide FaithfulStream, StreamLost;
  }

  /** While nothing has been cut, all drains plus what is pending are the whole streams, and the aggregate is
      everything. */
  lemma NothingLost(o: Output, h: History)
    requires Faithful(o, h) && !o.truncated
    ensures h.stdout.drained + Concat(o.pendingStdout) == h.stdout.full
    ensures h.stderr.drained + Concat(o.pendingStderr) == h.stderr.full
    ensures o.aggregated == h.all
  {}

  // ------------------------------------------------------------------- whole runs

  datatype Event = Wrote(stream: StreamName, chunk: Text) | DrainEvent

  function RunFrom(o: Output, h: History, events: seq<Event>): (Output, History)
    decreases |events|
  {
    if events == [] then (o, h) else
    match events[0]
    case Wrote(stream, chunk) => RunFrom(Append(o, stream, chunk), Recorded(h, stream, chunk), events[1..])
    case DrainEvent => RunFrom(Drained(o), DrainRecorded(h, o), events[1..])
  }

  lemma {:induction false} RunKeepsFaithful(o: Output, h: History, events: seq<Event>)
    requires Faithful(o, h)
    ensures var (p, g) := RunFrom(o, h, events); Faithful(p, g)
    decreases |events|
  {
    hide Faithful, Append, Recorded, DrainRecorded, Drained;
    if events == [] {
    } else {
      match events[0]
      case Wrote(stream, chunk) =>
        AppendFaithful(o, h, stream, chunk);
        RunKeepsFaithful(Append(o, stream, chunk), Recorded(h, stream, chunk), events[1..]);
      case DrainEvent =>
        DrainFaithful(o, h);
        RunKeepsFaithful(Drained(o), DrainRecorded(h, o), events[1..]);
    }
  }

  /** After any sequence of writes and drains, every buffer is the promised part of what was written, and the truncation
      flag is set exactly when some output can no longer be read. */
  lemma {:induction false} OutputIsConserved(maxOutputChars: nat, pendingMax: Option<nat>, events: seq<Event>)
    ensures var (o, h) := RunFrom(Fresh(maxOutputChars, pendingMax), NO_HISTORY, events); Faithful(o, h)
  {
    RunKeepsFaithful(Fresh(maxOutputChars, pendingMax), NO_HISTORY, events);
  }

  // -------------------------------------------------------------- chunk invariance

  /** What a reader of the session can see; how the pending text is cut into chunks is not part of it. */
  ghost predicate SameOutput(o: Output, p: Output) {
    Concat(o.pendingStdout) == Concat(p.pendingStdout) && o.pendingStdoutChars == p.pendingStdoutChars &&
    Concat(o.pendingStderr) == Concat(p.pendingStderr) && o.pendingStderrChars == p.pendingStderrChars &&
    o.aggregated == p.aggregated && o.tail == p.tail && o.totalOutputChars == p.totalOutputChars &&
      o.truncated == p.truncated
  }

  ghost predicate SameLimits(o: Output, p: Output) {
    o.maxOutputChars == p.maxOutputChars && o.pendingMaxOutputChars == p.pendingMaxOutputChars
  }

  /** The history alone determines what can be seen. */
  lemma HistoryDetermines(o: Output, p: Output, h: History)
    requires Faithful(o, h) && Faithful(p, h) && SameLimits(o, p)
    ensures SameOutput(o, p)
  {
    hide Lost, Concat, Suffix;
  }

  lemma {:induction false} AppendAllFaithful(o: Output, h: History, stream: StreamName, pieces: seq<Text>)
    requires Faithful(o, h)
    ensures Faithful(AppendAll(o, stream, pieces), Recorded(h, stream, Concat(pieces)))
    ensures SameLimits(AppendAll(o, stream, pieces), o)
    decreases |pieces|
  {
    hide Faithful;
    if pieces == [] {
      assert Recorded(h, stream, []) == h by { RecordNothing(h, stream); }
    } else {
      AppendFaithful(o, h, stream, pieces[0]);
      AppendAllFaithful(Append(o, stream, pieces[0]), Recorded(h, stream, pieces[0]), stream, pieces[1..]);
      RecordTwice(h, stream, pieces[0], Concat(pieces[1..]));
    }
  }

  lemma RecordNothing(h: History, stream: StreamName)
    ensures Recorded(h, stream, []) == h
  {
    assert forall s: Text :: s + [] == s;
  }

  lemma RecordTwice(h: History, stream: StreamName, a: Text, b: Text)
    ensures Recorded(Recorded(h, stream, a), stream, b) == Recorded(h, stream, a + b)
  {
    assert forall s: Text :: s + a + b == s + (a + b);
  }

  function ChunksFrom(input: Text, i: nat, limit: nat): seq<Text>
    requires limit > 0
    decreases |input| - i
  {
    if i >= |input| then [] else [input[i..Min(i + limit, |input|)]] + ChunksFrom(input, i + limit, limit)
  }

  method ChunkString(input: Text, limit: nat) returns (chunks: seq<Text>)
    requires limit > 0
    ensures chunks == ChunksFrom(input, 0, limit)
  {
    chunks := [];
    var i := 0;
    while i < |input|
      invariant chunks + ChunksFrom(input, i, limit) == ChunksFrom(input, 0, limit)
      decreases |input| - i
    {
      var piece := input[i..Min(i + limit, |input|)];
      assert chunks + ([piece] + ChunksFrom(input, i + limit, limit)) ==
        chunks + [piece] + ChunksFrom(input, i + limit, limit);
      chunks := chunks + [piece];
      i := i + limit;
    }
    assert chunks + [] == chunks;
  }

  lemma {:induction false} ChunksConcat(input: Text, i: nat, limit: nat)
    requires limit > 0
    ensures Concat(ChunksFrom(input, i, limit)) == if i >= |input| then [] else input[i..]
    ensures forall c :: c in ChunksFrom(input, i, limit) ==> 0 < |c| <= limit
    decreases |input| - i
  {
    if i < |input| {
      ChunksConcat(input, i + limit, limit);
      assert input[i..] == input[i..Min(i + limit, |input|)] +
        (if i + limit >= |input| then [] else input[i + limit..]);
    }
  }

  /** Appending a text in pieces of any size leaves the same visible output as appending it at once. */
  lemma {:induction false} ChunkingIsInvisible(o: Output, h: History, stream: StreamName, text: Text, limit: nat)
    requires Faithful(o, h) && limit > 0
    ensures SameOutput(AppendAll(o, stream, ChunksFrom(text, 0, limit)), Append(o, stream, text))
  {
    hide Faithful, ChunksFrom, SameOutput;
    ChunksConcat(text, 0, limit);
    assert text[0..] == text;
    AppendAllFaithful(o, h, stream, ChunksFrom(text, 0, limit));
    AppendFaithful(o, h, stream, text);
    HistoryDetermines(AppendAll(o, stream, ChunksFrom(text, 0, limit)), Append(o, stream, text),
      Recorded(h, stream, text));
  }

  // --------------------------------------------------------------------- registry

  datatype ProcessStatus = Running | Completed | Failed | Killed

  /** What is kept of a backgrounded session after its process has exited. */
  datatype FinishedSession = FinishedSession(
    id: string, endedAt: int, status: ProcessStatus, exitCode: Option<int>, exitSignal: Option<string>,
      aggregated: Text, tail: Text, truncated: bool, totalOutputChars: nat)

  class ProcessRegistry {
    var runningSessions: map<string, ProcessSession>
    var finishedSessions: map<string, FinishedSession>

    constructor ()
      ensures runningSessions == map[] && finishedSessions == map[]
    {
      runningSessions, finishedSessions := map[], map[];
    }

    predicate IsSessionIdTaken(id: string)
      reads this
    {
      id in runningSessions || id in finishedSessions
    }

    method AddSession(session: ProcessSession)
      modifies this`runningSessions
      ensures runningSessions == old(runningSessions)[session.id := session]
      ensures forall id :: IsSessionIdTaken(id) <==> old(IsSessionIdTaken(id)) || id == session.id
    {
      runningSessions := runningSessions[session.id := session];
    }

    method DeleteSession(id: string)
      modifies this
      ensures runningSessions == old(runningSessions) - {id} && finishedSessions == old(finishedSessions) - {id}
      ensures !IsSessionIdTaken(id)
    {
      runningSessions := runningSessions - {id};
      finishedSessions := finishedSessions - {id};
    }

    /** Records the exit.  Only a backgrounded session is remembered, with exactly the output a reader saw last. */
    method MarkExited(session: ProcessSession, exitCode: Option<int>, exitSignal: Option<string>, status: ProcessStatus,
        nowMs: int)
      modifies this, session
      ensures session.exited && session.exitCode == exitCode && session.exitSignal == exitSignal
      ensures session.View() == old(session.View()).(tail := Suffix(old(session.aggregated), TAIL_CHARS))
      ensures runningSessions == old(runningSessions) - {session.id}
      ensures finishedSessions == if session.backgrounded then old(finishedSessions)[session.id := FinishedSession(
          session.id, nowMs, status, exitCode, exitSignal, old(session.aggregated),
            Suffix(old(session.aggregated), TAIL_CHARS),
          old(session.truncated), old(session.totalOutputChars))]
        else old(finishedSessions)
      ensures session.backgrounded == old(session.backgrounded)
    {
      session.exited := true;
      session.exitCode, session.exitSignal := exitCode, exitSignal;
      session.tail := Suffix(session.aggregated, TAIL_CHARS);
      runningSessions := runningSessions - {session.id};
      if !session.backgrounded {
        return;
      }
      finishedSessions := finishedSessions[session.id := FinishedSession(
        session.id, nowMs, status, session.exitCode, session.exitSignal, session.aggregated, session.tail,
          session.truncated, session.totalOutputChars)];
    }

    method PruneFinishedSessions(nowMs: int, jobTtlMs: int)
      modifies this`finishedSessions
      ensures finishedSessions == map id | id in old(finishedSessions) &&
        old(finishedSessions)[id].endedAt >= nowMs - jobTtlMs :: old(finishedSessions)[id]
    {
      var cutoff := nowMs - jobTtlMs;
      var entries := finishedSessions.Keys;
      while entries != {}
        invariant entries <= finishedSessions.Keys
        invariant finishedSessions == map id | id in old(finishedSessions) &&
          (id in entries || old(finishedSessions)[id].endedAt >= cutoff) :: old(finishedSessions)[id]
        decreases entries
      {
        var id :| id in entries;
        if finishedSessions[id].endedAt < cutoff {
          finishedSessions := finishedSessions - {id};
        }
        entries := entries - {id};
      }
    }
  }
}
