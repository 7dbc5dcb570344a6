// Where src/agents/apply-patch-update.ts places one chunk, what its comparisons of
// lines mean, and how lines and file texts correspond.
module PatchPlacement {
  import opened JsText
  import opened PatchParser
  import opened PatchRoundTrip
  import opened PatchUpdate

  // ------------------------------------------------------------------ the search

  /** The first position of the window: the given line, or the last position where the pattern fits. */
  function FirstPosition(lines: seq<string>, pattern: seq<string>, from: nat, eof: bool): nat
    requires |pattern| <= |lines|
  {
    if eof then |lines| - |pattern| else from
  }

  ghost predicate FoundAtLevel(lines: seq<string>, pattern: seq<string>, from: nat, eof: bool, level: nat, at: nat) {
    |pattern| <= |lines| && level < LEVEL_COUNT &&
    StrictestFirst(lines, pattern, FirstPosition(lines, pattern, from, eof), |lines| - |pattern|, level, at)
  }

  /** The pattern is found at `at`: its strictest and then first match in the window, which ends where the file does. */
  ghost predicate FoundAt(lines: seq<string>, pattern: seq<string>, from: nat, eof: bool, at: nat) {
    if pattern == [] then at == from
    else exists level :: FoundAtLevel(lines, pattern, from, eof, level, at)
  }

  /** No position of that window matches, however loosely. */
  ghost predicate Missing(lines: seq<string>, pattern: seq<string>, from: nat, eof: bool) {
    pattern != [] && (|pattern| <= |lines| ==>
      forall j :: FirstPosition(lines, pattern, from, eof) <= j <= |lines| - |pattern| ==>
        !MatchAt(lines, pattern, j, IgnorePunctuation))
  }

  lemma StrictestIsUnique(lines: seq<string>, pattern: seq<string>, lo: nat, hi: nat, l: nat, m: nat, p: nat, q: nat)
    requires hi + |pattern| <= |lines| && l < LEVEL_COUNT && m < LEVEL_COUNT
    requires StrictestFirst(lines, pattern, lo, hi, l, p) && StrictestFirst(lines, pattern, lo, hi, m, q)
    ensures p == q
  {
    hide MatchAt;
  }

  /** The search finds exactly that position, and nothing exactly when nothing matches. */
  lemma SeekExactly(lines: seq<string>, pattern: seq<string>, from: nat, eof: bool, at: nat)
    ensures Seek(lines, pattern, from, eof) == Some(at) <==> FoundAt(lines, pattern, from, eof, at)
    ensures Seek(lines, pattern, from, eof) == None <==> Missing(lines, pattern, from, eof)
  {
    hide MatchAt, FirstLevelMatch, StrictestFirst;
    if 0 < |pattern| <= |lines| {
      var level := SeekIsStrictestFirst(lines, pattern, from, eof);
      var r := Seek(lines, pattern, from, eof);
      assert r.Some? ==> FoundAtLevel(lines, pattern, from, eof, level, r.value);
      if r.Some? && FoundAt(lines, pattern, from, eof, at) {
        var lo, last := FirstPosition(lines, pattern, from, eof), |lines| - |pattern|;
        var other :| FoundAtLevel(lines, pattern, from, eof, other, at);
        StrictestIsUnique(lines, pattern, lo, last, level, other, r.value, at);
      } else if FoundAt(lines, pattern, from, eof, at) {
        FoundMatches(lines, pattern, from, eof, at);
      }
    }
  }

  lemma FoundMatches(lines: seq<string>, pattern: seq<string>, from: nat, eof: bool, at: nat)
    requires pattern != [] && FoundAt(lines, pattern, from, eof, at)
    ensures !Missing(lines, pattern, from, eof)
  {
    hide MatchAt;
    var level :| FoundAtLevel(lines, pattern, from, eof, level, at);
    LooserMatches(lines, pattern, at, level, 3);
  }

  // -------------------------------------------------------------------- one chunk

  predicate HasContext(chunk: Chunk) {
    chunk.changeContext.Some? && chunk.changeContext.value != ""
  }

  /** The search for the chunk starts at `from`: at the given index, or one past the context that is searched from
      there. */
  ghost predicate StartsFrom(lines: seq<string>, chunk: Chunk, lineIndex: nat, from: nat) {
    if HasContext(chunk) then from > 0 && FoundAt(lines, [chunk.changeContext.value], lineIndex, false, from - 1)
    else from == lineIndex
  }

  /** What replaces what for a chunk that is searched from `from`, and where the next chunk's search starts: new lines
      alone go to the end, in front of a blank last line; else the old lines are replaced where they are found, or,
      when they are missing, the old lines without a blank last one. */
  ghost predicate Placed(lines: seq<string>, chunk: Chunk, from: nat, r: Replacement, next: nat) {
    var want, put, eof := chunk.oldLines, chunk.newLines, chunk.isEndOfFile;
    if chunk.oldLines == [] then
      r == Replacement(if lines != [] && Last(lines) == "" then |lines| - 1 else |lines|, 0, put) && next == from
    else
      next == r.start + r.oldLen &&
      if !Missing(lines, want, from, eof) then
        r.oldLen == |want| && r.newLines == put && FoundAt(lines, want, from, eof, r.start)
      else
        Last(want) == "" && r.oldLen == |want| - 1 && FoundAt(lines, want[..|want| - 1], from, eof, r.start) &&
        r.newLines == if put != [] && Last(put) == "" then put[..|put| - 1] else put
  }

  lemma ContextExactly(lines: seq<string>, chunk: Chunk, lineIndex: nat, from: nat)
    ensures var r := AfterContext(lines, chunk.changeContext, lineIndex);
      (r == Ok(from) <==> StartsFrom(lines, chunk, lineIndex, from)) &&
      (r.Err? <==> HasContext(chunk) && Missing(lines, [chunk.changeContext.value], lineIndex, false)) &&
      (r.Err? ==> r.error == ContextNotFound(chunk.changeContext.value))
  {
    hide Seek, FoundAt, Missing;
    if HasContext(chunk) {
      SeekExactly(lines, [chunk.changeContext.value], lineIndex, false, if from > 0 then from - 1 else 0);
    }
  }

  /** Neither the old lines are found nor, if the last one is blank, those before it. */
  ghost predicate AllMissing(lines: seq<string>, chunk: Chunk, from: nat) {
    var want, eof := chunk.oldLines, chunk.isEndOfFile;
    want != [] && Missing(lines, want, from, eof) &&
    (Last(want) == "" ==> Missing(lines, want[..|want| - 1], from, eof))
  }

  lemma AnchorExactly(lines: seq<string>, chunk: Chunk, from: nat, r: Replacement)
    requires chunk.oldLines != []
    ensures Anchor(lines, chunk, from) == Ok(r) <==> Placed(lines, chunk, from, r, r.End())
    ensures Anchor(lines, chunk, from).Err? <==> AllMissing(lines, chunk, from)
    ensures Anchor(lines, chunk, from).Err? ==> Anchor(lines, chunk, from).error == LinesNotFound(chunk.oldLines)
  {
    hide Seek, FoundAt, Missing;
    SeekExactly(lines, chunk.oldLines, from, chunk.isEndOfFile, r.start);
    SeekExactly(lines, chunk.oldLines[..|chunk.oldLines| - 1], from, chunk.isEndOfFile, r.start);
  }

  /** A chunk is placed exactly so, and in no other way. */
  lemma PlaceExactly(lines: seq<string>, chunk: Chunk, lineIndex: nat, r: Replacement, next: nat)
    ensures PlaceChunk(lines, chunk, lineIndex) == Ok((r, next)) <==>
      exists from :: StartsFrom(lines, chunk, lineIndex, from) && Placed(lines, chunk, from, r, next)
  {
    hide AfterContext, Anchor, StartsFrom, FoundAt, Missing;
    forall from: nat ensures StartsFrom(lines, chunk, lineIndex, from) <==>
      AfterContext(lines, chunk.changeContext, lineIndex) == Ok(from) {
      ContextExactly(lines, chunk, lineIndex, from);
    }
    var after := AfterContext(lines, chunk.changeContext, lineIndex);
    if after.Ok? && chunk.oldLines != [] {
      AnchorExactly(lines, chunk, after.value, r);
    }
  }

  /** A chunk is refused exactly when its context is missing, or else its lines are, also without a blank last one. */
  lemma RefusedExactly(lines: seq<string>, chunk: Chunk, lineIndex: nat)
    ensures var r := PlaceChunk(lines, chunk, lineIndex);
      if HasContext(chunk) && Missing(lines, [chunk.changeContext.value], lineIndex, false)
      then r == Err(ContextNotFound(chunk.changeContext.value))
      else
        exists from ::
          StartsFrom(lines, chunk, lineIndex, from) &&
          (r == Err(LinesNotFound(chunk.oldLines)) <==> AllMissing(lines, chunk, from)) &&
          (r.Err? ==> AllMissing(lines, chunk, from))
  {
    hide AfterContext, Anchor, StartsFrom, FoundAt, Missing;
    var after := AfterContext(lines, chunk.changeContext, lineIndex);
    ContextExactly(lines, chunk, lineIndex, if after.Ok? then after.value else 0);
    if after.Ok? && chunk.oldLines != [] {
      AnchorExactly(lines, chunk, after.value, Replacement(0, 0, []));
    }
  }

  /** The searches of the chunks start where `indices` says, each where the chunk before it led. */
  ghost predicate Threads(lines: seq<string>, chunks: seq<Chunk>, indices: seq<nat>, placed: seq<Replacement>) {
    |placed| == |chunks| && |indices| == |chunks| + 1 &&
    forall k :: 0 <= k < |chunks| ==> PlaceChunk(lines, chunks[k], indices[k]) == Ok((placed[k], indices[k + 1]))
  }

  /** An update is placed exactly when its chunks are, one after the other. */
  lemma {:induction false} PlacementsExactly(lines: seq<string>, chunks: seq<Chunk>, lineIndex: nat,
      placed: seq<Replacement>)
    ensures Placements(lines, chunks, lineIndex) == Ok(placed) <==>
      exists indices :: Threads(lines, chunks, indices, placed) && indices[0] == lineIndex
    decreases |chunks|
  {
    hide PlaceChunk;
    if Placements(lines, chunks, lineIndex) == Ok(placed) {
      var indices := ThreadOf(lines, chunks, lineIndex);
    }
    if indices :| Threads(lines, chunks, indices, placed) && indices[0] == lineIndex {
      ThreadPlaces(lines, chunks, indices, placed);
    }
  }

  lemma {:induction false} ThreadOf(lines: seq<string>, chunks: seq<Chunk>, lineIndex: nat) returns (indices: seq<nat>)
    requires Placements(lines, chunks, lineIndex).Ok?
    ensures Threads(lines, chunks, indices, Placements(lines, chunks, lineIndex).value) && indices[0] == lineIndex
    decreases |chunks|
  {
    hide PlaceChunk;
    if chunks == [] {
      indices := [lineIndex];
    } else {
      var (r, next) := PlaceChunk(lines, chunks[0], lineIndex).value;
      var rest := ThreadOf(lines, chunks[1..], next);
      indices := [lineIndex] + rest;
      var placed := Placements(lines, chunks[1..], next).value;
      forall k | 0 <= k < |chunks|
        ensures PlaceChunk(lines, chunks[k], indices[k]) == Ok((([r] + placed)[k], indices[k + 1]))
      {
        if k > 0 {
          assert PlaceChunk(lines, chunks[1..][k - 1], rest[k - 1]) == Ok((placed[k - 1], rest[k]));
        }
      }
    }
  }

  lemma {:induction false} ThreadPlaces(lines: seq<string>, chunks: seq<Chunk>, indices: seq<nat>,
      placed: seq<Replacement>)
    requires Threads(lines, chunks, indices, placed)
    ensures Placements(lines, chunks, indices[0]) == Ok(placed)
    decreases |chunks|
  {
    hide PlaceChunk;
    if chunks == [] {
    } else {
      forall k | 0 <= k < |chunks| - 1
        ensures PlaceChunk(lines, chunks[1..][k], indices[1..][k]) == Ok((placed[1..][k], indices[1..][k + 1]))
      {
        assert PlaceChunk(lines, chunks[k + 1], indices[k + 1]) == Ok((placed[k + 1], indices[k + 2]));
      }
      assert PlaceChunk(lines, chunks[0], indices[0]) == Ok((placed[0], indices[1]));
      ThreadPlaces(lines, chunks[1..], indices[1..], placed[1..]);
      assert placed == [placed[0]] + placed[1..];
    }
  }

  // ------------------------------------------------------------ what lines match

  predicate Blank(s: string) {
    forall k :: 0 <= k < |s| ==> IsSpace(s[k])
  }

  /** The line is the core with white space around it. */
  ghost predicate Padded(s: string, core: string, at: nat) {
    at + |core| <= |s| && s[at..at + |core|] == core && Blank(s[..at]) && Blank(s[at + |core|..])
  }

  /** The line is the core with white space after it. */
  ghost predicate Ended(s: string, core: string) {
    core <= s && Blank(s[|core|..])
  }

  lemma {:induction false} TrimStartParts(s: string)
    ensures Blank(s[..|s| - |TrimStart(s)|]) && s[|s| - |TrimStart(s)|..] == TrimStart(s)
    decreases |s|
  {
    if s != "" && IsSpace(s[0]) {
      TrimStartParts(s[1..]);
      assert s[..|s| - |TrimStart(s)|] == [s[0]] + s[1..][..|s| - 1 - |TrimStart(s)|];
    }
  }

  lemma {:induction false} TrimEndParts(s: string)
    ensures TrimEnd(s) <= s && Blank(s[|TrimEnd(s)|..])
    decreases |s|
  {
    if s != "" && IsSpace(s[|s| - 1]) {
      TrimEndParts(s[..|s| - 1]);
      assert s[|TrimEnd(s)|..] == s[..|s| - 1][|TrimEnd(s)|..] + [s[|s| - 1]];
    }
  }

  lemma {:induction false} TrimStartPast(head: string, s: string)
    requires Blank(head)
    ensures TrimStart(head + s) == TrimStart(s)
    decreases |head|
  {
    if head == "" {
      assert head + s == s;
    } else {
      assert (head + s)[1..] == head[1..] + s;
      TrimStartPast(head[1..], s);
    }
  }

  lemma {:induction false} TrimEndPast(s: string, tail: string)
    requires Blank(tail)
    ensures TrimEnd(s + tail) == TrimEnd(s)
    decreases |tail|
  {
    if tail == "" {
      assert s + tail == s;
    } else {
      assert (s + tail)[..|s| + |tail| - 1] == s + tail[..|tail| - 1];
      TrimEndPast(s, tail[..|tail| - 1]);
    }
  }

  /** Trimming leaves the core that has no white space at its ends and only white space around it. */
  lemma TrimExactly(s: string, core: string)
    ensures Trim(s) == core <==> Trimmed(core) && exists at :: Padded(s, core, at)
  {
    hide TrimStart, TrimEnd, IsSpace;
    TrimEndParts(s);
    TrimStartParts(TrimEnd(s));
    var ended := TrimEnd(s);
    var from := |ended| - |Trim(s)|;
    assert Padded(s, Trim(s), from) by {
      assert s[..from] == ended[..from] && s[from..|ended|] == ended[from..];
    }
    if Trimmed(core) && exists at :: Padded(s, core, at) {
      var at: nat :| Padded(s, core, at);
      assert s == s[..at] + core + s[at + |core|..];
      TrimEndPast(s[..at] + core, s[at + |core|..]);
      TrimPadded(s[..at], core);
    }
  }

  lemma TrimPadded(head: string, core: string)
    requires Blank(head) && Trimmed(core)
    ensures Trim(head + core) == core
  {
    if core == "" {
      assert head + core == "" + head;
      TrimEndPast("", head);
    } else {
      assert TrimEnd(head + core) == head + core;
      TrimStartPast(head, core);
    }
  }

  const DASHES: set<int> := {0x2D, 0x2010, 0x2011, 0x2012, 0x2013, 0x2014, 0x2015, 0x2212}
  const SINGLE_QUOTES: set<int> := {0x27, 0x2018, 0x2019, 0x201A, 0x201B}
  const DOUBLE_QUOTES: set<int> := {0x22, 0x201C, 0x201D, 0x201E, 0x201F}
  const BLANKS: set<int> := {0x20, 0xA0, 0x2002, 0x2003, 0x2004, 0x2005, 0x2006, 0x2007, 0x2008, 0x2009, 0x200A, 0x202F,
    0x205F, 0x3000}

  /** The characters are the same, or both dashes, both single quotes, both double quotes or both blanks. */
  predicate Alike(c: char, d: char) {
    var m, n := c as int, d as int;
    c == d || (m in DASHES && n in DASHES) || (m in SINGLE_QUOTES && n in SINGLE_QUOTES) ||
    (m in DOUBLE_QUOTES && n in DOUBLE_QUOTES) || (m in BLANKS && n in BLANKS)
  }

  /** Plain punctuation makes exactly the alike characters equal, and leaves ASCII alone. */
  lemma PunctuationExactly(c: char, d: char)
    ensures PlainPunctuation(c) == PlainPunctuation(d) <==> Alike(c, d)
    ensures c as int < 0x80 ==> PlainPunctuation(c) == c
  {}

  /** The four levels, in the order in which they are tried.  Two lines match at the second exactly when they differ in
      white space at their ends only, at the third when they differ in white space around them only, and at the last
      when they also may differ in alike characters. */
  lemma LevelsExactly(a: string, b: string)
    ensures [LevelAt(0), LevelAt(1), LevelAt(2), LevelAt(3)] ==
      [Exact, IgnoreTrailing, IgnoreIndent, IgnorePunctuation]
    ensures Normalize(Exact, a) == Normalize(Exact, b) <==> a == b
    ensures Normalize(IgnoreTrailing, a) == Normalize(IgnoreTrailing, b) <==>
      exists core :: Ended(a, core) && Ended(b, core)
    ensures Normalize(IgnoreIndent, a) == Normalize(IgnoreIndent, b) <==>
      exists core, i, j :: Trimmed(core) && Padded(a, core, i) && Padded(b, core, j)
    ensures Normalize(IgnorePunctuation, a) == Normalize(IgnorePunctuation, b) <==>
      |Trim(a)| == |Trim(b)| && forall k :: 0 <= k < |Trim(a)| ==> Alike(Trim(a)[k], Trim(b)[k])
  {
    hide TrimStart, TrimEnd, Trim, NormalizePunctuation, Alike, Ended, Padded, Trimmed;
    TrailingExactly(a, b);
    IndentExactly(a, b);
    AlikeExactly(Trim(a), Trim(b));
  }

  lemma AlikeExactly(p: string, q: string)
    ensures NormalizePunctuation(p) == NormalizePunctuation(q) <==>
      |p| == |q| && forall k :: 0 <= k < |p| ==> Alike(p[k], q[k])
  {
    hide PlainPunctuation, Alike;
    var m, n := NormalizePunctuation(p), NormalizePunctuation(q);
    assert |m| == |p| && |n| == |q|;
    if |p| == |q| {
      forall k | 0 <= k < |p| ensures m[k] == n[k] <==> Alike(p[k], q[k]) {
        PunctuationExactly(p[k], q[k]);
      }
    }
  }

  lemma TrailingExactly(a: string, b: string)
    ensures TrimEnd(a) == TrimEnd(b) <==>
      exists core :: Ended(a, core) && Ended(b, core)
  {
    hide TrimEnd, Blank;
    TrimEndParts(a);
    TrimEndParts(b);
    if TrimEnd(a) == TrimEnd(b) {
      assert Ended(a, TrimEnd(a)) && Ended(b, TrimEnd(a));
    }
    if core :| Ended(a, core) && Ended(b, core) {
      assert a == core + a[|core|..] && b == core + b[|core|..];
      TrimEndPast(core, a[|core|..]);
      TrimEndPast(core, b[|core|..]);
    }
  }

  lemma IndentExactly(a: string, b: string)
    ensures Trim(a) == Trim(b) <==>
      exists core, i, j :: Trimmed(core) && Padded(a, core, i) && Padded(b, core, j)
  {
    hide Trim, Trimmed, Padded;
    TrimExactly(a, Trim(a));
    TrimExactly(b, Trim(b));
    if Trim(a) == Trim(b) {
      var i :| Padded(a, Trim(a), i);
      var j :| Padded(b, Trim(b), j);
    }
    if core, i, j :| Trimmed(core) && Padded(a, core, i) && Padded(b, core, j) {
      TrimExactly(a, core);
      TrimExactly(b, core);
    }
  }

  // ----------------------------------------------------------- lines of a file text

  lemma {:induction false} UnLinesIsJoin(lines: seq<string>, last: string)
    ensures UnLines(lines) + last == Join(lines + [last], "\n")
    decreases |lines|
  {
    if lines == [] {
      assert lines + [last] == [last] && "" + last == last;
    } else {
      UnLinesIsJoin(lines[1..], last);
      assert (lines + [last])[1..] == lines[1..] + [last];
      var rest := UnLines(lines[1..]);
      assert lines[0] + "\n" + rest + last == lines[0] + "\n" + (rest + last);
    }
  }

  /** A text of lines that each end in a line feed has those lines, and one more if something follows the last. */
  lemma FileLinesExactly(lines: seq<string>, last: string)
    requires WfLines(lines) && '\n' !in last
    ensures FileLines(UnLines(lines) + last) == if last == "" then lines else lines + [last]
  {
    hide Split, Join, UnLines;
    UnLinesIsJoin(lines, last);
    SplitJoin(lines + [last], '\n');
    assert (lines + [last])[..|lines|] == lines;
  }

  /** The new text ends every line in a line feed, but none behind a blank last line. */
  lemma FileTextIsUnLines(lines: seq<string>)
    ensures FileText(lines) == UnLines(if lines != [] && Last(lines) == "" then lines[..|lines| - 1] else lines)
  {
    hide Join, UnLines;
    if lines != [] && Last(lines) == "" {
      UnLinesIsJoin(lines[..|lines| - 1], "");
      assert lines[..|lines| - 1] + [""] == lines;
    } else {
      UnLinesIsJoin(lines, "");
    }
  }
}
