// src/agents/apply-patch-update.ts: locating an update's chunks in a file and
// splicing their replacements in.
module PatchUpdate {
  import opened JsText
  import opened PatchParser

  // ------------------------------------------------------------- fuzzy search

  function PlainPunctuation(c: char): char {
    var n := c as int;
    if 0x2010 <= n <= 0x2015 || n == 0x2212 then '-'
    else if 0x2018 <= n <= 0x201B then '\''
    else if 0x201C <= n <= 0x201F then '"'
    else if n == 0xA0 || 0x2002 <= n <= 0x200A || n == 0x202F || n == 0x205F || n == 0x3000 then ' '
    else c
  }

  function NormalizePunctuation(s: string): string {
    seq(|s|, i requires 0 <= i < |s| => PlainPunctuation(s[i]))
  }

  /** How loosely two lines are compared, strictest first. */
  datatype Level = Exact | IgnoreTrailing | IgnoreIndent | IgnorePunctuation

  const LEVEL_COUNT := 4

  function Normalize(level: Level, s: string): string {
    match level
    case Exact => s
    case IgnoreTrailing => TrimEnd(s)
    case IgnoreIndent => Trim(s)
    case IgnorePunctuation => NormalizePunctuation(Trim(s))
  }

  predicate MatchAt(lines: seq<string>, pattern: seq<string>, start: nat, level: Level)
    requires start + |pattern| <= |lines|
  {
    forall k :: 0 <= k < |pattern| ==> Normalize(level, lines[start + k]) == Normalize(level, pattern[k])
  }

  method LinesMatch(lines: seq<string>, pattern: seq<string>, start: nat, level: Level) returns (ok: bool)
    requires start + |pattern| <= |lines|
    ensures ok == MatchAt(lines, pattern, start, level)
  {
    hide Normalize;
    for idx := 0 to |pattern|
      invariant forall k :: 0 <= k < idx ==> Normalize(level, lines[start + k]) == Normalize(level, pattern[k])
    {
      if Normalize(level, lines[start + idx]) != Normalize(level, pattern[idx]) {
        return false;
      }
    }
    ok := true;
  }

  /** The levels from strictest to loosest. */
  function LevelAt(i: nat): Level
    requires i < LEVEL_COUNT
  {
    if i == 0 then Exact else if i == 1 then IgnoreTrailing else if i == 2 then IgnoreIndent else IgnorePunctuation
  }

  lemma LooserEqual(a: string, b: string, i: nat)
    requires i + 1 < LEVEL_COUNT && Normalize(LevelAt(i), a) == Normalize(LevelAt(i), b)
    ensures Normalize(LevelAt(i + 1), a) == Normalize(LevelAt(i + 1), b)
  {
    hide TrimEnd, TrimStart, NormalizePunctuation;
  }

  /** Lines equal at one level are equal at every looser one. */
  lemma LooserMatches(lines: seq<string>, pattern: seq<string>, start: nat, i: nat, j: nat)
    requires start + |pattern| <= |lines| && i <= j < LEVEL_COUNT
    requires MatchAt(lines, pattern, start, LevelAt(i))
    ensures MatchAt(lines, pattern, start, LevelAt(j))
    decreases j - i
  {
    hide Normalize;
    if i < j {
      forall k | 0 <= k < |pattern|
        ensures Normalize(LevelAt(i + 1), lines[start + k]) == Normalize(LevelAt(i + 1), pattern[k])
      {
        LooserEqual(lines[start + k], pattern[k], i);
      }
      LooserMatches(lines, pattern, start, i + 1, j);
    }
  }

  /** The first position in `lo..hi` (both included) that matches at the level. */
  function FirstMatch(lines: seq<string>, pattern: seq<string>, lo: nat, hi: int, level: Level): (r: Option<nat>)
    requires hi + |pattern| <= |lines|
    decreases hi + 1 - lo
  {
    if lo > hi then None
    else if MatchAt(lines, pattern, lo, level) then Some(lo)
    else FirstMatch(lines, pattern, lo + 1, hi, level)
  }

  lemma {:induction false} FirstMatchIsFirst(lines: seq<string>, pattern: seq<string>, lo: nat, hi: int, level: Level)
    requires hi + |pattern| <= |lines|
    ensures var r := FirstMatch(lines, pattern, lo, hi, level);
      if r.Some? then
        lo <= r.value <= hi && MatchAt(lines, pattern, r.value, level) &&
        forall j :: lo <= j < r.value ==> !MatchAt(lines, pattern, j, level)
      else forall j :: lo <= j <= hi ==> !MatchAt(lines, pattern, j, level)
    decreases hi + 1 - lo
  {
    hide MatchAt;
    if lo <= hi && !MatchAt(lines, pattern, lo, level) {
      FirstMatchIsFirst(lines, pattern, lo + 1, hi, level);
    }
  }

  method SearchLevel(lines: seq<string>, pattern: seq<string>, searchStart: nat, maxStart: nat, level: Level)
      returns (r: Option<nat>)
    requires maxStart + |pattern| <= |lines|
    ensures r == FirstMatch(lines, pattern, searchStart, maxStart, level)
  {
    hide MatchAt;
    var i := searchStart;
    while i <= maxStart
      invariant FirstMatch(lines, pattern, i, maxStart, level) ==
        FirstMatch(lines, pattern, searchStart, maxStart, level)
      decreases maxStart + 1 - i
    {
      var ok := LinesMatch(lines, pattern, i, level);
      if ok {
        return Some(i);
      }
      i := i + 1;
    }
    r := None;
  }

  /** The first match at the first level from `level` on that has one. */
  function FirstLevelMatch(lines: seq<string>, pattern: seq<string>, lo: nat, hi: nat, level: nat): Option<nat>
    requires hi + |pattern| <= |lines| && level <= LEVEL_COUNT
    decreases LEVEL_COUNT - level
  {
    if level == LEVEL_COUNT then None else
    var r := FirstMatch(lines, pattern, lo, hi, LevelAt(level));
    if r.Some? then r else FirstLevelMatch(lines, pattern, lo, hi, level + 1)
  }

  /** Where the search window begins; it ends at the last position the pattern fits. */
  function SearchStart(lines: seq<string>, pattern: seq<string>, start: nat, eof: bool): nat
    requires |pattern| <= |lines|
  {
    if eof then |lines| - |pattern| else start
  }

  function Seek(lines: seq<string>, pattern: seq<string>, start: nat, eof: bool): Option<nat> {
    if pattern == [] then Some(start)
    else if |pattern| > |lines| then None
    else FirstLevelMatch(lines, pattern, SearchStart(lines, pattern, start, eof), |lines| - |pattern|, 0)
  }

  method SeekSequence(lines: seq<string>, pattern: seq<string>, start: nat, eof: bool) returns (r: Option<nat>)
    ensures r == Seek(lines, pattern, start, eof)
  {
    hide FirstMatch;
    if |pattern| == 0 {
      return Some(start);
    }
    if |pattern| > |lines| {
      return None;
    }
    var maxStart := |lines| - |pattern|;
    var searchStart := if eof && |lines| >= |pattern| then maxStart else start;
    if searchStart > maxStart {
      EmptyWindow(lines, pattern, searchStart, maxStart, 0);
      return None;
    }
    for level := 0 to LEVEL_COUNT
      invariant FirstLevelMatch(lines, pattern, searchStart, maxStart, level) == Seek(lines, pattern, start, eof)
    {
      var found := SearchLevel(lines, pattern, searchStart, maxStart, LevelAt(level));
      if found.Some? {
        return found;
      }
    }
    r := None;
  }

  lemma {:induction false} EmptyWindow(lines: seq<string>, pattern: seq<string>, lo: nat, hi: nat, level: nat)
    requires hi + |pattern| <= |lines| && level <= LEVEL_COUNT && lo > hi
    ensures FirstLevelMatch(lines, pattern, lo, hi, level) == None
    decreases LEVEL_COUNT - level
  {
    hide MatchAt;
    if level < LEVEL_COUNT {
      EmptyWindow(lines, pattern, lo, hi, level + 1);
    }
  }

  /** `r` is the first position at the strictest level that matches anywhere in the window. */
  ghost predicate StrictestFirst(lines: seq<string>, pattern: seq<string>, lo: nat, hi: nat, level: nat, r: nat)
    requires hi + |pattern| <= |lines| && level < LEVEL_COUNT
  {
    lo <= r <= hi && MatchAt(lines, pattern, r, LevelAt(level)) &&
    (forall j :: lo <= j < r ==> !MatchAt(lines, pattern, j, LevelAt(level))) &&
    forall l, j :: 0 <= l < level && lo <= j <= hi ==> !MatchAt(lines, pattern, j, LevelAt(l))
  }

  lemma {:induction false} FirstLevelSound(lines: seq<string>, pattern: seq<string>, lo: nat, hi: nat, level: nat)
      returns (at: nat)
    requires hi + |pattern| <= |lines| && level <= LEVEL_COUNT
    requires forall l, j :: 0 <= l < level && lo <= j <= hi ==> !MatchAt(lines, pattern, j, LevelAt(l))
    ensures var r := FirstLevelMatch(lines, pattern, lo, hi, level);
      if r.Some? then at < LEVEL_COUNT && StrictestFirst(lines, pattern, lo, hi, at, r.value)
      else forall l, j :: 0 <= l < LEVEL_COUNT && lo <= j <= hi ==> !MatchAt(lines, pattern, j, LevelAt(l))
    decreases LEVEL_COUNT - level
  {
    hide MatchAt, FirstMatch;
    at := level;
    if level < LEVEL_COUNT {
      FirstMatchIsFirst(lines, pattern, lo, hi, LevelAt(level));
      if FirstMatch(lines, pattern, lo, hi, LevelAt(level)).None? {
        at := FirstLevelSound(lines, pattern, lo, hi, level + 1);
      }
    }
  }

  /** The search is sound, complete and least: it returns the first position at the strictest matching level, and
      fails exactly when no position of the window matches even at the loosest level. */
  lemma SeekIsStrictestFirst(lines: seq<string>, pattern: seq<string>, start: nat, eof: bool) returns (level: nat)
    requires 0 < |pattern| <= |lines|
    ensures var lo := SearchStart(lines, pattern, start, eof);
      var hi := |lines| - |pattern|;
      var r := Seek(lines, pattern, start, eof);
      (r.Some? ==> level < LEVEL_COUNT && StrictestFirst(lines, pattern, lo, hi, level, r.value)) &&
      (r.None? <==> forall j :: lo <= j <= hi ==> !MatchAt(lines, pattern, j, IgnorePunctuation))
  {
    hide MatchAt;
    var lo, hi := SearchStart(lines, pattern, start, eof), |lines| - |pattern|;
    var r := Seek(lines, pattern, start, eof);
    level := FirstLevelSound(lines, pattern, lo, hi, 0);
    if r.Some? {
      LooserMatches(lines, pattern, r.value, level, 3);
    }
  }

  /** A search lands before its start exactly when it is an end-of-file search whose only window position,
      the end of the file, lies before that start and matches. */
  lemma SeekGoesBack(lines: seq<string>, pattern: seq<string>, start: nat, eof: bool)
    ensures var r := Seek(lines, pattern, start, eof);
      (r.Some? && r.value < start) <==>
      (eof && 0 < |pattern| <= |lines| && |lines| - |pattern| < start &&
        MatchAt(lines, pattern, |lines| - |pattern|, IgnorePunctuation))
  {
    hide MatchAt;
    if 0 < |pattern| <= |lines| {
      var level := SeekIsStrictestFirst(lines, pattern, start, eof);
    }
  }

  // -------------------------------------------------------------- replacements

  datatype Replacement = Replacement(start: nat, oldLen: nat, newLines: seq<string>)
  {
    function End(): nat { start + oldLen }
  }

  datatype UpdateError = ContextNotFound(context: string) | LinesNotFound(oldLines: seq<string>)

  function Last<T>(s: seq<T>): T
    requires s != []
  {
    s[|s| - 1]
  }

  predicate EndsBlank(lines: seq<string>) {
    lines != [] && Last(lines) == ""
  }

  /** Where a chunk without old lines is inserted. */
  function InsertionIndex(lines: seq<string>): nat {
    if EndsBlank(lines) then |lines| - 1 else |lines|
  }

  /** The line the search for a chunk starts from, past its context line if it names one. */
  function AfterContext(lines: seq<string>, context: Option<string>, lineIndex: nat): Result<nat, UpdateError> {
    if context.None? || context.value == "" then Ok(lineIndex) else
    var at := Seek(lines, [context.value], lineIndex, false);
    if at.Some? then Ok(at.value + 1) else Err(ContextNotFound(context.value))
  }

  function DropLastBlank(lines: seq<string>): seq<string> {
    if EndsBlank(lines) then lines[..|lines| - 1] else lines
  }

  /** The replacement of a chunk with old lines, searched from `from`. */
  function Anchor(lines: seq<string>, chunk: Chunk, from: nat): Result<Replacement, UpdateError> {
    var found := Seek(lines, chunk.oldLines, from, chunk.isEndOfFile);
    if found.Some? then Ok(Replacement(found.value, |chunk.oldLines|, chunk.newLines))
    else if EndsBlank(chunk.oldLines) then
      var pattern := DropLastBlank(chunk.oldLines);
      var again := Seek(lines, pattern, from, chunk.isEndOfFile);
      if again.Some? then Ok(Replacement(again.value, |pattern|, DropLastBlank(chunk.newLines)))
      else Err(LinesNotFound(chunk.oldLines))
    else Err(LinesNotFound(chunk.oldLines))
  }

  /** The replacement of one chunk and the line index after it. */
  function PlaceChunk(lines: seq<string>, chunk: Chunk, lineIndex: nat): Result<(Replacement, nat), UpdateError> {
    var from :- AfterContext(lines, chunk.changeContext, lineIndex);
    if chunk.oldLines == [] then Ok((Replacement(InsertionIndex(lines), 0, chunk.newLines), from)) else
    var r :- Anchor(lines, chunk, from);
    Ok((r, r.End()))
  }

  /** The replacements of all chunks, in chunk order. */
  function Placements(lines: seq<string>, chunks: seq<Chunk>, lineIndex: nat):
      (r: Result<seq<Replacement>, UpdateError>)
    ensures r.Ok? ==> |r.value| == |chunks|
  {
    if chunks == [] then Ok([]) else
    var (first, next) :- PlaceChunk(lines, chunks[0], lineIndex);
    var rest :- Placements(lines, chunks[1..], next);
    Ok([first] + rest)
  }

  /** Puts `r` after every replacement that does not start later. */
  function InsertByStart(r: Replacement, sorted: seq<Replacement>): seq<Replacement> {
    if sorted == [] then [r]
    else if Last(sorted).start <= r.start then sorted + [r]
    else InsertByStart(r, sorted[..|sorted| - 1]) + [Last(sorted)]
  }

  /** The stable sort by start line. */
  function SortByStart(rs: seq<Replacement>): seq<Replacement> {
    if rs == [] then [] else InsertByStart(Last(rs), SortByStart(rs[..|rs| - 1]))
  }

  /** The whole list, once `done` chunks have been placed and `rest` is the outcome of the others. */
  function AfterPlacing(done: seq<Replacement>, rest: Result<seq<Replacement>, UpdateError>):
      Result<seq<Replacement>, UpdateError> {
    if rest.Ok? then Ok(done + rest.value) else rest
  }

  lemma PlacementsStep(lines: seq<string>, chunks: seq<Chunk>, k: nat, lineIndex: nat, done: seq<Replacement>)
    requires k < |chunks|
    ensures var placed := PlaceChunk(lines, chunks[k], lineIndex);
      AfterPlacing(done, Placements(lines, chunks[k..], lineIndex)) ==
      if placed.Ok? then AfterPlacing(done + [placed.value.0], Placements(lines, chunks[k + 1..], placed.value.1))
        else Err(placed.error)
  {
    hide PlaceChunk;
    assert chunks[k..][0] == chunks[k] && chunks[k..][1..] == chunks[k + 1..];
    var placed := PlaceChunk(lines, chunks[k], lineIndex);
    if placed.Ok? {
      var rest := Placements(lines, chunks[k + 1..], placed.value.1);
      if rest.Ok? {
        assert done + ([placed.value.0] + rest.value) == done + [placed.value.0] + rest.value;
      }
    }
  }

  function Replacements(lines: seq<string>, chunks: seq<Chunk>): Result<seq<Replacement>, UpdateError> {
    var placed :- Placements(lines, chunks, 0);
    Ok(SortByStart(placed))
  }

  /** The body of the loop over chunks. */
  method PlaceNext(lines: seq<string>, chunk: Chunk, lineIndex: nat)
      returns (r: Result<(Replacement, nat), UpdateError>)
    ensures r == PlaceChunk(lines, chunk, lineIndex)
  {
    hide Seek;
    var from := lineIndex;
    if chunk.changeContext.Some? && chunk.changeContext.value != "" {
      var ctxIndex := SeekSequence(lines, [chunk.changeContext.value], from, false);
      if ctxIndex.None? {
        return Err(ContextNotFound(chunk.changeContext.value));
      }
      from := ctxIndex.value + 1;
    }
    if |chunk.oldLines| == 0 {
      return Ok((Replacement(InsertionIndex(lines), 0, chunk.newLines), from));
    }
    var pattern, newSlice := chunk.oldLines, chunk.newLines;
    var found := SeekSequence(lines, pattern, from, chunk.isEndOfFile);
    if found.None? && pattern[|pattern| - 1] == "" {
      pattern := pattern[..|pattern| - 1];
      if |newSlice| > 0 && newSlice[|newSlice| - 1] == "" {
        newSlice := newSlice[..|newSlice| - 1];
      }
      found := SeekSequence(lines, pattern, from, chunk.isEndOfFile);
    }
    if found.None? {
      return Err(LinesNotFound(chunk.oldLines));
    }
    r := Ok((Replacement(found.value, |pattern|, newSlice), found.value + |pattern|));
  }

  method ComputeReplacements(lines: seq<string>, chunks: seq<Chunk>) returns (r: Result<seq<Replacement>, UpdateError>)
    ensures r == Replacements(lines, chunks)
  {
    hide PlaceChunk, SortByStart;
    var replacements: seq<Replacement>, lineIndex := [], 0;
    ghost var whole := Placements(lines, chunks, 0);
    assert chunks[0..] == chunks;
    assert whole.Ok? ==> [] + whole.value == whole.value;
    for k := 0 to |chunks|
      invariant AfterPlacing(replacements, Placements(lines, chunks[k..], lineIndex)) == whole
    {
      PlacementsStep(lines, chunks, k, lineIndex, replacements);
      var placed := PlaceNext(lines, chunks[k], lineIndex);
      if placed.Err? {
        return Err(placed.error);
      }
      replacements := replacements + [placed.value.0];
      lineIndex := placed.value.1;
    }
    assert replacements + [] == replacements;
    r := Ok(SortByStart(replacements));
  }

  // ------------------------------------------------------------------ splicing

  /** One replacement, cut off at the end of the lines as `splice` cuts it off. */
  function SpliceOne(lines: seq<string>, r: Replacement): seq<string> {
    lines[..Min(r.start, |lines|)] + r.newLines + lines[Min(r.End(), |lines|)..]
  }

  /** All replacements, the last one first. */
  function SpliceAll(lines: seq<string>, rs: seq<Replacement>): seq<string> {
    if rs == [] then lines else SpliceOne(SpliceAll(lines, rs[1..]), rs[0])
  }

  method DeleteLines(lines: seq<string>, start: nat, count: nat) returns (result: seq<string>)
    ensures result == lines[..Min(start, |lines|)] + lines[Min(start + count, |lines|)..]
  {
    result := lines;
    for i := 0 to count
      invariant result == lines[..Min(start, |lines|)] + lines[Min(start + i, |lines|)..]
    {
      if start < |result| {
        result := result[..start] + result[start + 1..];
      }
    }
  }

  method InsertLines(lines: seq<string>, start: nat, newLines: seq<string>) returns (result: seq<string>)
    ensures result == lines[..Min(start, |lines|)] + newLines + lines[Min(start, |lines|)..]
  {
    ghost var head, tail := lines[..Min(start, |lines|)], lines[Min(start, |lines|)..];
    result := lines;
    for i := 0 to |newLines|
      invariant result == head + newLines[..i] + tail
    {
      var at := Min(start + i, |result|);
      assert newLines[..i + 1] == newLines[..i] + [newLines[i]];
      assert result[..at] == head + newLines[..i] && result[at..] == tail;
      result := result[..at] + [newLines[i]] + result[at..];
    }
    assert newLines[..|newLines|] == newLines;
  }

  /** Deleting and then inserting at the same place is one splice. */
  lemma SpliceInSteps(lines: seq<string>, r: Replacement)
    ensures var shorter := lines[..Min(r.start, |lines|)] + lines[Min(r.End(), |lines|)..];
      shorter[..Min(r.start, |shorter|)] + r.newLines + shorter[Min(r.start, |shorter|)..] == SpliceOne(lines, r)
  {}

  method ApplyReplacements(lines: seq<string>, replacements: seq<Replacement>) returns (result: seq<string>)
    ensures result == SpliceAll(lines, replacements)
  {
    result := lines;
    var k := |replacements|;
    assert replacements[k..] == [];
    while k > 0
      invariant 0 <= k <= |replacements|
      invariant result == SpliceAll(lines, replacements[k..])
    {
      k := k - 1;
      var r := replacements[k];
      assert replacements[k..][1..] == replacements[k + 1..];
      SpliceInSteps(result, r);
      result := DeleteLines(result, r.start, r.oldLen);
      result := InsertLines(result, r.start, r.newLines);
    }
    assert replacements[0..] == replacements;
  }

  /** Every replacement lies inside the file and ends before the next one begins. */
  ghost predicate Disjoint(rs: seq<Replacement>) {
    forall i, j :: 0 <= i < j < |rs| ==> rs[i].End() <= rs[j].start
  }

  ghost predicate InBounds(lines: seq<string>, rs: seq<Replacement>) {
    forall r :: r in rs ==> r.End() <= |lines|
  }

  /** The declarative result: kept stretches of the file with the new lines in between. */
  function Stitch(lines: seq<string>, rs: seq<Replacement>, from: nat): seq<string>
    requires from <= |lines|
  {
    if rs == [] then lines[from..]
    else if from <= rs[0].start && rs[0].End() <= |lines| then
      lines[from..rs[0].start] + rs[0].newLines + Stitch(lines, rs[1..], rs[0].End())
    else []
  }

  /** Splicing right to left in place equals stitching left to right. */
  lemma {:induction false} SpliceIsStitch(lines: seq<string>, rs: seq<Replacement>, from: nat)
    requires Disjoint(rs) && InBounds(lines, rs) && from <= |lines|
    requires rs != [] ==> from <= rs[0].start
    ensures SpliceAll(lines, rs) == lines[..from] + Stitch(lines, rs, from)
    decreases |rs|
  {
    if rs == [] {
      assert lines == lines[..from] + lines[from..];
    } else {
      var r := rs[0];
      assert r in rs;
      SpliceIsStitch(lines, rs[1..], r.End());
      SpliceStep(lines, r, Stitch(lines, rs[1..], r.End()), from);
    }
  }

  /** One more splice before an untouched stretch of the file. */
  lemma SpliceStep(lines: seq<string>, r: Replacement, tail: seq<string>, from: nat)
    requires from <= r.start && r.End() <= |lines|
    ensures SpliceOne(lines[..r.End()] + tail, r) == lines[..from] + (lines[from..r.start] + r.newLines + tail)
  {
    var inner := lines[..r.End()] + tail;
    assert inner[..r.start] == lines[..r.start] && inner[r.End()..] == tail;
    assert lines[..r.start] == lines[..from] + lines[from..r.start];
  }

  // ---------------------------------------------------------------- whole file

  function FileLines(contents: string): seq<string> {
    DropLastBlank(Split(contents, '\n'))
  }

  function FileText(lines: seq<string>): string {
    Join(if EndsBlank(lines) then lines else lines + [""], "\n")
  }

  function UpdatedText(contents: string, chunks: seq<Chunk>): Result<string, UpdateError> {
    var rs :- Replacements(FileLines(contents), chunks);
    Ok(FileText(SpliceAll(FileLines(contents), rs)))
  }

  method ApplyUpdateHunk(contents: string, chunks: seq<Chunk>) returns (r: Result<string, UpdateError>)
    ensures r == UpdatedText(contents, chunks)
  {
    hide Replacements, SpliceAll, Split, Join;
    var originalLines := Split(contents, '\n');
    if |originalLines| > 0 && originalLines[|originalLines| - 1] == "" {
      originalLines := originalLines[..|originalLines| - 1];
    }
    var replacements := ComputeReplacements(originalLines, chunks);
    if replacements.Err? {
      return Err(replacements.error);
    }
    var newLines := ApplyReplacements(originalLines, replacements.value);
    if |newLines| == 0 || newLines[|newLines| - 1] != "" {
      newLines := newLines + [""];
    }
    r := Ok(Join(newLines, "\n"));
  }
}
