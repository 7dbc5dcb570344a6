// When the replacements of an update are the ones its chunks ask for.
module PatchUpdateLaws {
  import opened JsText
  import opened PatchParser
  import opened PatchUpdate

  // ------------------------------------------------------------------ the sort

  ghost predicate SortedByStart(rs: seq<Replacement>) {
    forall i, j :: 0 <= i < j < |rs| ==> rs[i].start <= rs[j].start
  }

  /** The replacements that start at line `n`, in order. */
  function StartingAt(rs: seq<Replacement>, n: nat): seq<Replacement> {
    if rs == [] then [] else StartingAt(rs[..|rs| - 1], n) + if Last(rs).start == n then [Last(rs)] else []
  }

  lemma StartingAtSnoc(rs: seq<Replacement>, r: Replacement, n: nat)
    ensures StartingAt(rs + [r], n) == StartingAt(rs, n) + if r.start == n then [r] else []
  {
    assert (rs + [r])[..|rs|] == rs;
  }

  lemma {:induction false} InsertSorts(r: Replacement, s: seq<Replacement>)
    requires SortedByStart(s)
    ensures SortedByStart(InsertByStart(r, s))
    ensures multiset(InsertByStart(r, s)) == multiset(s) + multiset{r}
    decreases |s|
  {
    hide SortedByStart;
    if s != [] && Last(s).start > r.start {
      var front, last := s[..|s| - 1], Last(s);
      assert s == front + [last];
      SortedFront(s);
      InsertSorts(r, front);
      var inner := InsertByStart(r, front);
      MembersFromCounts(inner, front, r);
      SortedSnoc(inner, last);
    } else {
      SortedTail(s, r);
    }
  }

  lemma SortedTail(s: seq<Replacement>, r: Replacement)
    requires SortedByStart(s) && (s != [] ==> Last(s).start <= r.start)
    ensures SortedByStart(s + [r]) && (s == [] ==> s + [r] == [r])
  {}

  lemma MembersFromCounts(all: seq<Replacement>, s: seq<Replacement>, r: Replacement)
    requires multiset(all) == multiset(s) + multiset{r}
    ensures forall p :: p in all <==> p in s || p == r
  {
    assert forall p :: p in all <==> p in multiset(all);
  }

  lemma SortedFront(s: seq<Replacement>)
    requires SortedByStart(s) && s != []
    ensures SortedByStart(s[..|s| - 1]) && forall p :: p in s[..|s| - 1] ==> p.start <= Last(s).start
  {
    forall p | p in s[..|s| - 1] ensures p.start <= Last(s).start {
      var k :| 0 <= k < |s| - 1 && s[k] == p;
      assert s[k].start <= s[|s| - 1].start;
    }
  }

  lemma SortedSnoc(s: seq<Replacement>, last: Replacement)
    requires SortedByStart(s) && forall p :: p in s ==> p.start <= last.start
    ensures SortedByStart(s + [last])
  {}

  lemma {:induction false} InsertStable(r: Replacement, s: seq<Replacement>, n: nat)
    ensures StartingAt(InsertByStart(r, s), n) == StartingAt(s, n) + if r.start == n then [r] else []
    decreases |s|
  {
    hide StartingAt;
    if s == [] {
      StartingAtSnoc([], r, n);
      assert [] + [r] == [r];
    } else if Last(s).start <= r.start {
      StartingAtSnoc(s, r, n);
    } else {
      var front, last := s[..|s| - 1], Last(s);
      assert s == front + [last];
      InsertStable(r, front, n);
      StartingAtSnoc(InsertByStart(r, front), last, n);
      StartingAtSnoc(front, last, n);
    }
  }

  /** The sort orders by start, keeps every replacement, and keeps the order of those that start together. */
  lemma {:induction false} SortIsStable(rs: seq<Replacement>)
    ensures SortedByStart(SortByStart(rs)) && multiset(SortByStart(rs)) == multiset(rs)
    ensures forall n: nat :: StartingAt(SortByStart(rs), n) == StartingAt(rs, n)
    decreases |rs|
  {
    if rs == [] {
    } else {
      var front := rs[..|rs| - 1];
      assert rs == front + [Last(rs)];
      SortIsStable(front);
      InsertSorts(Last(rs), SortByStart(front));
      forall n: nat ensures StartingAt(SortByStart(rs), n) == StartingAt(rs, n) {
        InsertStable(Last(rs), SortByStart(front), n);
      }
    }
  }

  /** Two replacements, the first from an earlier chunk, that the sort leaves apart. */
  ghost predicate Compatible(p: Replacement, r: Replacement) {
    if p.start <= r.start then p.End() <= r.start else r.End() <= p.start
  }

  lemma DisjointSnoc(rs: seq<Replacement>, r: Replacement)
    ensures Disjoint(rs + [r]) <==> Disjoint(rs) && AllEndBefore(rs, r.start)
  {
    var all := rs + [r];
    if Disjoint(all) {
      forall i, j | 0 <= i < j < |rs| ensures rs[i].End() <= rs[j].start {
        assert all[i].End() <= all[j].start;
      }
      forall p | p in rs ensures p.End() <= r.start {
        var i :| 0 <= i < |rs| && rs[i] == p;
        assert all[i].End() <= all[|rs|].start;
      }
    }
  }

  ghost predicate AllCompatible(s: seq<Replacement>, r: Replacement) {
    forall p :: p in s ==> Compatible(p, r)
  }

  ghost predicate AllEndBefore(s: seq<Replacement>, n: nat) {
    forall p :: p in s ==> p.End() <= n
  }

  lemma {:induction false} InsertDisjoint(r: Replacement, s: seq<Replacement>)
    requires SortedByStart(s)
    ensures Disjoint(InsertByStart(r, s)) <==> Disjoint(s) && AllCompatible(s, r)
    decreases |s|
  {
    hide Disjoint;
    if s == [] {
      EmptyDisjoint();
      DisjointSnoc([], r);
      assert [] + [r] == [r];
    } else if Last(s).start <= r.start {
      DisjointSnoc(s, r);
      assert forall p :: p in s ==> p.start <= r.start;
    } else {
      var front, last := s[..|s| - 1], Last(s);
      assert s == front + [last];
      InsertDisjoint(r, front);
      DisjointSnoc(InsertByStart(r, front), last);
      DisjointSnoc(front, last);
      InsertEnds(r, front, last.start);
      assert AllCompatible(s, r) <==> AllCompatible(front, r) && Compatible(last, r);
    }
  }

  lemma InsertEnds(r: Replacement, s: seq<Replacement>, n: nat)
    requires SortedByStart(s)
    ensures AllEndBefore(InsertByStart(r, s), n) <==> AllEndBefore(s, n) && r.End() <= n
  {
    InsertSorts(r, s);
    MembersFromCounts(InsertByStart(r, s), s, r);
  }

  lemma EmptyDisjoint()
    ensures Disjoint([])
  {}

  ghost predicate PairwiseCompatible(rs: seq<Replacement>) {
    forall i, j :: 0 <= i < j < |rs| ==> Compatible(rs[i], rs[j])
  }

  /** The sorted replacements are disjoint exactly when every two of them are compatible. */
  lemma {:induction false} SortDisjoint(rs: seq<Replacement>)
    ensures Disjoint(SortByStart(rs)) <==> PairwiseCompatible(rs)
    decreases |rs|
  {
    hide Disjoint, Compatible;
    if rs == [] {
      EmptyDisjoint();
    } else {
      var front, last := rs[..|rs| - 1], Last(rs);
      assert rs == front + [last];
      SortDisjoint(front);
      SortIsStable(front);
      InsertDisjoint(last, SortByStart(front));
      var sorted := SortByStart(front);
      assert forall p :: p in sorted <==> p in multiset(sorted);
      assert forall p :: p in sorted <==> p in front;
      assert PairwiseCompatible(rs) <==> PairwiseCompatible(front) && forall i :: 0 <= i < |front| ==>
        Compatible(front[i], last) by {
        assert PairwiseCompatible(rs) ==> forall i :: 0 <= i < |front| ==> Compatible(rs[i], rs[|rs| - 1]);
      }
    }
  }

  // ------------------------------------------------------------ where chunks go

  lemma SeekInFile(lines: seq<string>, pattern: seq<string>, start: nat, eof: bool)
    requires start <= |lines|
    ensures var r := Seek(lines, pattern, start, eof);
      r.Some? ==> (
        r.value + |pattern| <= |lines| && MatchAt(lines, pattern, r.value, IgnorePunctuation) &&
        (r.value >= start || (eof && r.value + |pattern| == |lines|)))
  {
    hide MatchAt;
    var r := Seek(lines, pattern, start, eof);
    if 0 < |pattern| <= |lines| {
      var level := SeekIsStrictestFirst(lines, pattern, start, eof);
      if r.Some? {
        LooserMatches(lines, pattern, r.value, level, 3);
      }
    } else if pattern == [] {
      EmptyPatternMatches(lines, start);
    }
  }

  lemma EmptyPatternMatches(lines: seq<string>, start: nat)
    requires start <= |lines|
    ensures MatchAt(lines, [], start, IgnorePunctuation)
  {}

  lemma ContextInFile(lines: seq<string>, context: Option<string>, lineIndex: nat)
    requires lineIndex <= |lines|
    ensures var r := AfterContext(lines, context, lineIndex); r.Ok? ==> lineIndex <= r.value <= |lines|
  {
    hide Seek, MatchAt;
    if context.Some? {
      SeekInFile(lines, [context.value], lineIndex, false);
    }
  }

  /** The lines an anchored chunk replaces are its old lines, up to the loosest comparison and up to one blank last
      line. */
  lemma AnchorMatches(lines: seq<string>, chunk: Chunk, from: nat)
    requires from <= |lines| && chunk.oldLines != [] && Anchor(lines, chunk, from).Ok?
    ensures var r := Anchor(lines, chunk, from).value;
      r.oldLen <= |chunk.oldLines| && r.End() <= |lines| &&
      MatchAt(lines, chunk.oldLines[..r.oldLen], r.start, IgnorePunctuation) &&
      (if r.oldLen == |chunk.oldLines| then r.newLines == chunk.newLines else
        r.oldLen == |chunk.oldLines| - 1 && EndsBlank(chunk.oldLines) && r.newLines == DropLastBlank(chunk.newLines)) &&
      (r.start >= from || (chunk.isEndOfFile && r.End() == |lines|))
  {
    hide Seek, MatchAt;
    SeekInFile(lines, chunk.oldLines, from, chunk.isEndOfFile);
    SeekInFile(lines, DropLastBlank(chunk.oldLines), from, chunk.isEndOfFile);
    assert chunk.oldLines[..|chunk.oldLines|] == chunk.oldLines;
  }

  lemma PlaceChunkFacts(lines: seq<string>, chunk: Chunk, lineIndex: nat)
    requires lineIndex <= |lines| && PlaceChunk(lines, chunk, lineIndex).Ok?
    ensures var (r, next) := PlaceChunk(lines, chunk, lineIndex).value;
      lineIndex <= next <= |lines| && r.End() <= |lines| &&
      (chunk.oldLines == [] ==> r.start == InsertionIndex(lines) && r.oldLen == 0) &&
      (chunk.oldLines != [] ==> r.End() == next && (r.start >= lineIndex || (chunk.isEndOfFile && r.End() == |lines|)))
  {
    hide Anchor;
    ContextInFile(lines, chunk.changeContext, lineIndex);
    var from := AfterContext(lines, chunk.changeContext, lineIndex).value;
    if chunk.oldLines != [] {
      AnchorMatches(lines, chunk, from);
    }
  }

  /** What every run over the chunks keeps: replacements in the file, insertions at their fixed place, and an anchored
      one before an earlier one only if it is an end-of-file chunk that reaches the end of the file. */
  ghost predicate Chained(lines: seq<string>, chunks: seq<Chunk>, placed: seq<Replacement>, from: nat) {
    |placed| == |chunks| &&
    (forall k :: 0 <= k < |placed| ==> placed[k].End() <= |lines|) &&
    (forall k :: 0 <= k < |placed| && chunks[k].oldLines == [] ==>
      placed[k].start == InsertionIndex(lines) && placed[k].oldLen == 0) &&
    (forall k :: 0 <= k < |placed| && chunks[k].oldLines != [] ==>
      placed[k].start >= from || (chunks[k].isEndOfFile && placed[k].End() == |lines|)) &&
    forall i, j :: 0 <= i < j < |placed| && chunks[i].oldLines != [] && chunks[j].oldLines != [] ==>
      placed[i].End() <= placed[j].start || (chunks[j].isEndOfFile && placed[j].End() == |lines|)
  }

  lemma NoneChained(lines: seq<string>, from: nat)
    ensures Chained(lines, [], [], from)
  {}

  lemma {:induction false} PlacementsChained(lines: seq<string>, chunks: seq<Chunk>, from: nat)
    requires from <= |lines| && Placements(lines, chunks, from).Ok?
    ensures Chained(lines, chunks, Placements(lines, chunks, from).value, from)
    decreases |chunks|
  {
    hide PlaceChunk, InsertionIndex, Chained;
    if chunks == [] {
      NoneChained(lines, from);
    } else {
      var (first, next) := PlaceChunk(lines, chunks[0], from).value;
      PlaceChunkFacts(lines, chunks[0], from);
      PlacementsChained(lines, chunks[1..], next);
      var rest := Placements(lines, chunks[1..], next).value;
      ChainedCons(lines, chunks, first, rest, from, next);
    }
  }

  lemma ChainedCons(lines: seq<string>, chunks: seq<Chunk>, first: Replacement, rest: seq<Replacement>, from: nat,
      next: nat)
    requires chunks != [] && Chained(lines, chunks[1..], rest, next) && from <= next && first.End() <= |lines|
    requires chunks[0].oldLines == [] ==> first.start == InsertionIndex(lines) && first.oldLen == 0
    requires chunks[0].oldLines != [] ==>
      first.End() == next && (first.start >= from || (chunks[0].isEndOfFile && first.End() == |lines|))
    ensures Chained(lines, chunks, [first] + rest, from)
  {
    hide InsertionIndex;
    var placed := [first] + rest;
    assert forall k :: 0 < k < |chunks| ==> placed[k] == rest[k - 1] && chunks[k] == chunks[1..][k - 1];
  }

  // -------------------------------------------------- exactly when they are disjoint

  /** How many lines an end-of-file chunk takes off the end: its old lines, or all but a blank last one if the file does
      not end in them. */
  ghost function EndLength(lines: seq<string>, chunk: Chunk): nat
    requires chunk.oldLines != []
  {
    var n := |chunk.oldLines|;
    if n <= |lines| && MatchAt(lines, chunk.oldLines, |lines| - n, IgnorePunctuation) then n else n - 1
  }

  /** The guard of the branch that ignores where the search should start: the lines at the end of the file that the
      chunk takes begin before the line that earlier chunks have reached. */
  ghost predicate StepsBack(lines: seq<string>, chunk: Chunk, reached: nat) {
    chunk.isEndOfFile && chunk.oldLines != [] && |lines| < reached + EndLength(lines, chunk)
  }

  /** No end-of-file chunk steps back behind `reached`, the end of the last anchored chunk before it; one that
      replaces nothing at the very end of the file reaches nothing.  `lineIndex` is where the search for the next
      chunk starts. */
  ghost predicate NeverStepsBack(lines: seq<string>, chunks: seq<Chunk>, lineIndex: nat, reached: nat)
    requires Placements(lines, chunks, lineIndex).Ok?
    decreases |chunks|
  {
    chunks == [] ||
    var (r, next) := PlaceChunk(lines, chunks[0], lineIndex).value;
    var further := if chunks[0].oldLines == [] || r.start == |lines| then reached else r.End();
    !StepsBack(lines, chunks[0], reached) && NeverStepsBack(lines, chunks[1..], next, further)
  }

  /** The replacement takes the last line of the file away. */
  predicate TakesEnd(lines: seq<string>, r: Replacement) {
    r.start < |lines| <= r.End()
  }

  /** A last line that insertions go in front of is left to them: no insertion comes after a chunk that takes it, and a
      chunk that takes it after an insertion takes nothing else.  `inserted` and `taken` say what came before. */
  ghost predicate LeavesEnd(lines: seq<string>, chunks: seq<Chunk>, lineIndex: nat, inserted: bool, taken: bool)
    requires Placements(lines, chunks, lineIndex).Ok?
    decreases |chunks|
  {
    chunks == [] ||
    var (r, next) := PlaceChunk(lines, chunks[0], lineIndex).value;
    if chunks[0].oldLines == [] then !taken && LeavesEnd(lines, chunks[1..], next, true, taken)
    else if TakesEnd(lines, r) then
      (inserted ==> r.start == |lines| - 1) && LeavesEnd(lines, chunks[1..], next, inserted, true)
    else LeavesEnd(lines, chunks[1..], next, inserted, taken)
  }

  /** Insertions go in front of a blank last line, so a file that ends in one has to keep it for them. */
  ghost predicate BlankEndKept(lines: seq<string>, chunks: seq<Chunk>)
    requires Placements(lines, chunks, 0).Ok?
  {
    EndsBlank(lines) ==> LeavesEnd(lines, chunks, 0, false, false)
  }

  /** The same on the placements: no insertion and chunk get in each other's way at the end of the file. */
  ghost predicate EndFree(lines: seq<string>, chunks: seq<Chunk>, placed: seq<Replacement>)
    requires |placed| == |chunks|
  {
    forall k, j :: 0 <= k < |placed| && 0 <= j < |placed| && chunks[k].oldLines == [] && chunks[j].oldLines != [] ==>
      !TakesEnd(lines, placed[j]) || (k < j && placed[j].start == |lines| - 1)
  }

  /** Every chunk that takes the last line takes nothing else. */
  ghost predicate TakesOnlyEnd(lines: seq<string>, chunks: seq<Chunk>, placed: seq<Replacement>)
    requires |placed| == |chunks|
  {
    forall j :: 0 <= j < |placed| && chunks[j].oldLines != [] && TakesEnd(lines, placed[j]) ==>
      placed[j].start == |lines| - 1
  }

  ghost predicate NoInsertion(chunks: seq<Chunk>) {
    forall c :: c in chunks ==> c.oldLines != []
  }

  lemma EndFreeInsertion(lines: seq<string>, chunks: seq<Chunk>, r: Replacement, rest: seq<Replacement>)
    requires chunks != [] && |rest| + 1 == |chunks| && chunks[0].oldLines == []
    ensures EndFree(lines, chunks, [r] + rest) <==>
      EndFree(lines, chunks[1..], rest) && TakesOnlyEnd(lines, chunks[1..], rest)
  {
    hide TakesEnd;
    var placed := [r] + rest;
    ConsShift(chunks, r, rest);
    if EndFree(lines, chunks, placed) {
      forall j | 0 <= j < |rest| && chunks[1..][j].oldLines != [] && TakesEnd(lines, rest[j])
        ensures rest[j].start == |lines| - 1
      {
        assert placed[j + 1] == rest[j];
      }
    }
  }

  lemma EndFreeAnchored(lines: seq<string>, chunks: seq<Chunk>, r: Replacement, rest: seq<Replacement>)
    requires chunks != [] && |rest| + 1 == |chunks| && chunks[0].oldLines != []
    ensures EndFree(lines, chunks, [r] + rest) <==>
      EndFree(lines, chunks[1..], rest) && (TakesEnd(lines, r) ==> NoInsertion(chunks[1..]))
  {
    hide TakesEnd;
    ConsShift(chunks, r, rest);
  }

  lemma TakesOnlyEndCons(lines: seq<string>, chunks: seq<Chunk>, r: Replacement, rest: seq<Replacement>)
    requires chunks != [] && |rest| + 1 == |chunks|
    ensures TakesOnlyEnd(lines, chunks, [r] + rest) <==>
      TakesOnlyEnd(lines, chunks[1..], rest) &&
      (chunks[0].oldLines != [] && TakesEnd(lines, r) ==> r.start == |lines| - 1)
  {
    hide TakesEnd;
    ConsShift(chunks, r, rest);
  }

  lemma NoInsertionCons(chunks: seq<Chunk>)
    requires chunks != []
    ensures NoInsertion(chunks) <==> chunks[0].oldLines != [] && NoInsertion(chunks[1..])
  {
    assert forall c :: c in chunks <==> c == chunks[0] || c in chunks[1..];
  }

  lemma ConsShift(chunks: seq<Chunk>, r: Replacement, rest: seq<Replacement>)
    requires chunks != [] && |rest| + 1 == |chunks|
    ensures var placed := [r] + rest;
      placed[0] == r &&
      (forall k :: 1 <= k < |chunks| ==> placed[k] == rest[k - 1] && chunks[k] == chunks[1..][k - 1]) &&
      forall k :: 0 <= k < |rest| ==> rest[k] == placed[k + 1] && chunks[1..][k] == chunks[k + 1]
  {}

  lemma NothingAtEnd(lines: seq<string>)
    ensures EndFree(lines, [], []) && TakesOnlyEnd(lines, [], []) && NoInsertion([])
  {}

  /** The pass over the chunks decides it. */
  lemma {:induction false} LeavesEndExactly(lines: seq<string>, chunks: seq<Chunk>, lineIndex: nat, inserted: bool,
      taken: bool)
    requires Placements(lines, chunks, lineIndex).Ok?
    ensures var placed := Placements(lines, chunks, lineIndex).value;
      LeavesEnd(lines, chunks, lineIndex, inserted, taken) <==>
        EndFree(lines, chunks, placed) && (inserted ==> TakesOnlyEnd(lines, chunks, placed)) &&
        (taken ==> NoInsertion(chunks))
    decreases |chunks|
  {
    hide PlaceChunk, EndFree, TakesOnlyEnd, TakesEnd, NoInsertion;
    if chunks == [] {
      NothingAtEnd(lines);
    } else {
      var (r, next) := PlaceChunk(lines, chunks[0], lineIndex).value;
      var rest := Placements(lines, chunks[1..], next).value;
      TakesOnlyEndCons(lines, chunks, r, rest);
      NoInsertionCons(chunks);
      if chunks[0].oldLines == [] {
        EndFreeInsertion(lines, chunks, r, rest);
        LeavesEndExactly(lines, chunks[1..], next, true, taken);
      } else {
        EndFreeAnchored(lines, chunks, r, rest);
        LeavesEndExactly(lines, chunks[1..], next, inserted, taken || TakesEnd(lines, r));
      }
    }
  }

  /** An end-of-file search has one position to look at. */
  lemma SeekAtEnd(lines: seq<string>, pattern: seq<string>, start: nat)
    requires pattern != []
    ensures var r := Seek(lines, pattern, start, true);
      if |pattern| <= |lines| && MatchAt(lines, pattern, |lines| - |pattern|, IgnorePunctuation)
      then r == Some(|lines| - |pattern|) else r == None
  {
    hide MatchAt;
    if |pattern| <= |lines| {
      var level := SeekIsStrictestFirst(lines, pattern, start, true);
    }
  }

  lemma EofPlacement(lines: seq<string>, chunk: Chunk, from: nat)
    requires chunk.isEndOfFile && chunk.oldLines != [] && Anchor(lines, chunk, from).Ok?
    ensures var r := Anchor(lines, chunk, from).value;
      r.oldLen == EndLength(lines, chunk) && (r.End() == |lines| || (r.oldLen == 0 && r.start == from))
  {
    hide MatchAt, SearchStart;
    SeekAtEnd(lines, chunk.oldLines, from);
    if EndsBlank(chunk.oldLines) && |chunk.oldLines| > 1 {
      SeekAtEnd(lines, DropLastBlank(chunk.oldLines), from);
    }
  }

  /** Every two anchored chunks land in chunk order, unless the earlier one replaces nothing at the end of the file. */
  ghost predicate InChunkOrder(lines: seq<string>, chunks: seq<Chunk>, placed: seq<Replacement>)
    requires |placed| == |chunks|
  {
    forall i, j :: 0 <= i < j < |placed| && chunks[i].oldLines != [] && chunks[j].oldLines != [] ==>
      placed[i].End() <= placed[j].start || placed[i].start == |lines|
  }

  ghost predicate AllFrom(chunks: seq<Chunk>, placed: seq<Replacement>, reached: nat)
    requires |placed| == |chunks|
  {
    forall j :: 0 <= j < |placed| && chunks[j].oldLines != [] ==> reached <= placed[j].start
  }

  lemma OrderCons(lines: seq<string>, chunks: seq<Chunk>, r: Replacement, rest: seq<Replacement>)
    requires chunks != [] && |rest| + 1 == |chunks|
    ensures InChunkOrder(lines, chunks, [r] + rest) <==>
      InChunkOrder(lines, chunks[1..], rest) &&
      (chunks[0].oldLines == [] || r.start == |lines| || AllFrom(chunks[1..], rest, r.End()))
  {
    if InChunkOrder(lines, chunks, [r] + rest) {
      OrderTail(lines, chunks, r, rest);
    }
    if InChunkOrder(lines, chunks[1..], rest) &&
      (chunks[0].oldLines == [] || r.start == |lines| || AllFrom(chunks[1..], rest, r.End())) {
      OrderFront(lines, chunks, r, rest);
    }
  }

  lemma OrderTail(lines: seq<string>, chunks: seq<Chunk>, r: Replacement, rest: seq<Replacement>)
    requires chunks != [] && |rest| + 1 == |chunks| && InChunkOrder(lines, chunks, [r] + rest)
    ensures InChunkOrder(lines, chunks[1..], rest)
    ensures chunks[0].oldLines == [] || r.start == |lines| || AllFrom(chunks[1..], rest, r.End())
  {
    var placed := [r] + rest;
    forall i, j | 0 <= i < j < |rest| && chunks[1..][i].oldLines != [] && chunks[1..][j].oldLines != []
      ensures rest[i].End() <= rest[j].start || rest[i].start == |lines|
    {
      assert placed[i + 1].End() <= placed[j + 1].start || placed[i + 1].start == |lines|;
    }
    if chunks[0].oldLines != [] && r.start != |lines| {
      forall j | 0 <= j < |rest| && chunks[1..][j].oldLines != [] ensures r.End() <= rest[j].start {
        assert placed[0].End() <= placed[j + 1].start;
      }
    }
  }

  lemma OrderFront(lines: seq<string>, chunks: seq<Chunk>, r: Replacement, rest: seq<Replacement>)
    requires chunks != [] && |rest| + 1 == |chunks| && InChunkOrder(lines, chunks[1..], rest)
    requires chunks[0].oldLines == [] || r.start == |lines| || AllFrom(chunks[1..], rest, r.End())
    ensures InChunkOrder(lines, chunks, [r] + rest)
  {
    var placed, later := [r] + rest, chunks[1..];
    forall i, j | 0 <= i < j < |placed| && chunks[i].oldLines != [] && chunks[j].oldLines != []
      ensures placed[i].End() <= placed[j].start || placed[i].start == |lines|
    {
      assert later[j - 1] == chunks[j] && placed[j] == rest[j - 1];
      if i > 0 {
        assert later[i - 1] == chunks[i] && placed[i] == rest[i - 1];
      }
    }
  }

  lemma AllFromCons(chunks: seq<Chunk>, r: Replacement, rest: seq<Replacement>, reached: nat)
    requires chunks != [] && |rest| + 1 == |chunks|
    ensures AllFrom(chunks, [r] + rest, reached) <==>
      AllFrom(chunks[1..], rest, reached) && (chunks[0].oldLines == [] || reached <= r.start)
  {
    var placed := [r] + rest;
    assert forall k :: 1 <= k < |chunks| ==> placed[k] == rest[k - 1] && chunks[k] == chunks[1..][k - 1];
    assert forall k :: 0 <= k < |rest| ==> rest[k] == placed[k + 1] && chunks[1..][k] == chunks[k + 1];
  }

  lemma AllFromLess(chunks: seq<Chunk>, placed: seq<Replacement>, more: nat, less: nat)
    requires |placed| == |chunks| && less <= more && AllFrom(chunks, placed, more)
    ensures AllFrom(chunks, placed, less)
  {}

  lemma FirstStep(lines: seq<string>, chunk: Chunk, lineIndex: nat, reached: nat)
    requires reached <= lineIndex <= |lines| && PlaceChunk(lines, chunk, lineIndex).Ok?
    ensures var (r, next) := PlaceChunk(lines, chunk, lineIndex).value;
      lineIndex <= next <= |lines| && (chunk.oldLines != [] ==>
        next == r.End() && (StepsBack(lines, chunk, reached) <==> r.start < reached))
  {
    hide Anchor, MatchAt;
    PlaceChunkFacts(lines, chunk, lineIndex);
    ContextInFile(lines, chunk.changeContext, lineIndex);
    var from := AfterContext(lines, chunk.changeContext, lineIndex).value;
    if chunk.oldLines != [] {
      AnchorMatches(lines, chunk, from);
      if chunk.isEndOfFile {
        EofPlacement(lines, chunk, from);
      }
    }
  }

  /** The guard decides the order of all chunks. */
  lemma {:induction false} StepsBackExactly(lines: seq<string>, chunks: seq<Chunk>, lineIndex: nat, reached: nat)
    requires reached <= lineIndex <= |lines| && Placements(lines, chunks, lineIndex).Ok?
    ensures var placed := Placements(lines, chunks, lineIndex).value;
      NeverStepsBack(lines, chunks, lineIndex, reached) <==>
        InChunkOrder(lines, chunks, placed) && AllFrom(chunks, placed, reached)
    decreases |chunks|
  {
    hide PlaceChunk, StepsBack, InChunkOrder, AllFrom;
    if chunks == [] {
      NoneInOrder(lines, reached);
    } else {
      var (r, next) := PlaceChunk(lines, chunks[0], lineIndex).value;
      var rest := Placements(lines, chunks[1..], next).value;
      var further := if chunks[0].oldLines == [] || r.start == |lines| then reached else r.End();
      FirstStep(lines, chunks[0], lineIndex, reached);
      StepsBackExactly(lines, chunks[1..], next, further);
      OrderCons(lines, chunks, r, rest);
      AllFromCons(chunks, r, rest, reached);
      if reached <= r.start && AllFrom(chunks[1..], rest, r.End()) {
        AllFromLess(chunks[1..], rest, r.End(), reached);
      }
      if chunks[0].oldLines == [] {
        InsertionStepsNowhere(lines, chunks[0], reached);
      }
    }
  }

  lemma InsertionStepsNowhere(lines: seq<string>, chunk: Chunk, reached: nat)
    requires chunk.oldLines == []
    ensures !StepsBack(lines, chunk, reached)
  {}

  lemma NoneInOrder(lines: seq<string>, reached: nat)
    ensures InChunkOrder(lines, [], []) && AllFrom([], [], reached)
  {}

  /** The replacements of an update are disjoint exactly when no end-of-file chunk steps back behind an earlier one
      and no chunk takes a blank last line away from an insertion. */
  lemma DisjointExactly(lines: seq<string>, chunks: seq<Chunk>)
    requires Placements(lines, chunks, 0).Ok?
    ensures var placed := Placements(lines, chunks, 0).value;
      Disjoint(SortByStart(placed)) <==> NeverStepsBack(lines, chunks, 0, 0) && BlankEndKept(lines, chunks)
  {
    hide Placements, NeverStepsBack, SortByStart, InChunkOrder, LeavesEnd, EndFree;
    var placed := Placements(lines, chunks, 0).value;
    StepsBackExactly(lines, chunks, 0, 0);
    LeavesEndExactly(lines, chunks, 0, false, false);
    OrderDisjoint(lines, chunks);
  }

  lemma {:induction false} OrderDisjoint(lines: seq<string>, chunks: seq<Chunk>)
    requires Placements(lines, chunks, 0).Ok?
    ensures var placed := Placements(lines, chunks, 0).value;
      Disjoint(SortByStart(placed)) <==>
        InChunkOrder(lines, chunks, placed) && (EndsBlank(lines) ==> EndFree(lines, chunks, placed))
  {
    hide Placements, SortByStart, Disjoint;
    var placed := Placements(lines, chunks, 0).value;
    PlacementsChained(lines, chunks, 0);
    SortDisjoint(placed);
    if InChunkOrder(lines, chunks, placed) && (EndsBlank(lines) ==> EndFree(lines, chunks, placed)) {
      forall i, j | 0 <= i < j < |placed| ensures Compatible(placed[i], placed[j]) {
      }
    }
    if PairwiseCompatible(placed) {
      forall i, j | 0 <= i < j < |placed| && chunks[i].oldLines != [] && chunks[j].oldLines != []
        ensures placed[i].End() <= placed[j].start || placed[i].start == |lines|
      {
        assert Compatible(placed[i], placed[j]);
      }
      if EndsBlank(lines) {
        forall k, j | 0 <= k < |placed| && 0 <= j < |placed| && chunks[k].oldLines == [] && chunks[j].oldLines != []
          ensures !TakesEnd(lines, placed[j]) || (k < j && placed[j].start == |lines| - 1)
        {
          assert if k < j then Compatible(placed[k], placed[j]) else Compatible(placed[j], placed[k]);
        }
      }
    }
  }

  lemma SortInBounds(lines: seq<string>, chunks: seq<Chunk>)
    requires Placements(lines, chunks, 0).Ok?
    ensures InBounds(lines, SortByStart(Placements(lines, chunks, 0).value))
  {
    hide Placements, SortByStart;
    var placed := Placements(lines, chunks, 0).value;
    PlacementsChained(lines, chunks, 0);
    SortIsStable(placed);
    var sorted := SortByStart(placed);
    forall r | r in sorted ensures r.End() <= |lines| {
      assert r in multiset(sorted);
      assert r in placed;
    }
  }

  /** Whenever the chunks land in file order, the updated file is the stitched one. */
  lemma {:induction false} UpdateIsStitch(contents: string, chunks: seq<Chunk>)
    requires Placements(FileLines(contents), chunks, 0).Ok?
    requires NeverStepsBack(FileLines(contents), chunks, 0, 0)
    requires BlankEndKept(FileLines(contents), chunks)
    ensures var lines := FileLines(contents);
      UpdatedText(contents, chunks) == Ok(FileText(Stitch(lines, SortByStart(Placements(lines, chunks, 0).value), 0)))
  {
    hide FileLines, FileText, Placements, SortByStart, SpliceAll, NeverStepsBack, BlankEndKept, Disjoint, InBounds;
    var lines := FileLines(contents);
    var rs := SortByStart(Placements(lines, chunks, 0).value);
    DisjointExactly(lines, chunks);
    SortInBounds(lines, chunks);
    FirstNotBefore(lines, rs);
    assert lines[..0] + Stitch(lines, rs, 0) == Stitch(lines, rs, 0);
  }

  lemma FirstNotBefore(lines: seq<string>, rs: seq<Replacement>)
    requires Disjoint(rs) && InBounds(lines, rs)
    ensures SpliceAll(lines, rs) == lines[..0] + Stitch(lines, rs, 0)
  {
    hide SpliceAll, Stitch;
    SpliceIsStitch(lines, rs, 0);
  }

  lemma {:induction false} PlainNeverStepsBack(lines: seq<string>, chunks: seq<Chunk>, lineIndex: nat, reached: nat)
    requires Placements(lines, chunks, lineIndex).Ok? && forall c :: c in chunks ==> !c.isEndOfFile
    ensures NeverStepsBack(lines, chunks, lineIndex, reached)
    decreases |chunks|
  {
    hide PlaceChunk;
    if chunks == [] {
    } else {
      var (r, next) := PlaceChunk(lines, chunks[0], lineIndex).value;
      var further := if chunks[0].oldLines == [] || r.start == |lines| then reached else r.End();
      PlainNeverStepsBack(lines, chunks[1..], next, further);
    }
  }

  /** Without end-of-file chunks, and in a file that does not end in a blank line, every located update is a stitch. */
  lemma {:induction false} PlainUpdateIsStitch(contents: string, chunks: seq<Chunk>)
    requires !EndsBlank(FileLines(contents)) && forall c :: c in chunks ==> !c.isEndOfFile
    ensures var lines := FileLines(contents);
      var placed := Placements(lines, chunks, 0);
      UpdatedText(contents, chunks) ==
        if placed.Ok? then Ok(FileText(Stitch(lines, SortByStart(placed.value), 0))) else Err(placed.error)
  {
    hide FileLines, FileText, Placements, SortByStart, SpliceAll, Stitch, EndsBlank;
    var lines := FileLines(contents);
    if Placements(lines, chunks, 0).Ok? {
      PlainNeverStepsBack(lines, chunks, 0, 0);
      UpdateIsStitch(contents, chunks);
    }
  }

  // ------------------------------------------------------ the two ways it can fail

  lemma SeekExactAtStart(lines: seq<string>, pattern: seq<string>, start: nat, eof: bool)
    requires 0 < |pattern| && start + |pattern| <= |lines| && (eof ==> start + |pattern| == |lines|)
    requires lines[start..start + |pattern|] == pattern
    ensures Seek(lines, pattern, start, eof) == Some(start)
  {
    assert forall k :: 0 <= k < |pattern| ==> pattern[k] == lines[start + k];
    assert MatchAt(lines, pattern, start, Exact);
  }

  lemma SeekExactAtEnd(lines: seq<string>, pattern: seq<string>, start: nat)
    requires 0 < |pattern| <= |lines| && lines[|lines| - |pattern|..] == pattern
    ensures Seek(lines, pattern, start, true) == Some(|lines| - |pattern|)
  {
    var at := |lines| - |pattern|;
    assert forall k :: 0 <= k < |pattern| ==> pattern[k] == lines[at + k];
    assert MatchAt(lines, pattern, at, Exact);
  }

  /** An end-of-file chunk is searched from the end whatever came before it, and can swallow an earlier replacement. */
  lemma EofChunkOverlaps()
    ensures var lines := ["a", "b"];
      var chunks := [Chunk(None, ["a"], ["x"], false), Chunk(None, ["a", "b"], ["y"], true)];
      var rs := Replacements(lines, chunks);
      rs.Ok? && !Disjoint(rs.value) && SpliceAll(lines, rs.value) == ["x"]
  {
    hide Seek, Split;
    var lines := ["a", "b"];
    var first, second := Chunk(None, ["a"], ["x"], false), Chunk(None, ["a", "b"], ["y"], true);
    SeekExactAtStart(lines, ["a"], 0, false);
    SeekExactAtEnd(lines, ["a", "b"], 1);
    var r0, r1 := Replacement(0, 1, ["x"]), Replacement(0, 2, ["y"]);
    assert PlaceChunk(lines, first, 0) == Ok((r0, 1));
    assert PlaceChunk(lines, second, 1) == Ok((r1, 2));
    TwoPlacements(lines, first, second, r0, r1, 1, 2);
    assert SpliceOne(lines, r1) == ["y"];
    assert SpliceOne(["y"], r0) == ["x"];
    TwoSplices(lines, r0, r1);
    assert !Disjoint([r0, r1]) by { assert [r0, r1][0].End() > [r0, r1][1].start; }
  }

  lemma TwoPlacements(lines: seq<string>, c0: Chunk, c1: Chunk, r0: Replacement, r1: Replacement, n0: nat, n1: nat)
    requires PlaceChunk(lines, c0, 0) == Ok((r0, n0)) && PlaceChunk(lines, c1, n0) == Ok((r1, n1))
    requires r0.start <= r1.start
    ensures Replacements(lines, [c0, c1]) == Ok([r0, r1])
  {
    hide PlaceChunk;
    assert [c0, c1][1..] == [c1] && [c1][1..] == [];
    assert Placements(lines, [], n1) == Ok([]);
    assert [r1] + [] == [r1] && [r0] + [r1] == [r0, r1];
    assert Placements(lines, [c1], n0) == Ok([r1]);
    assert Placements(lines, [c0, c1], 0) == Ok([r0, r1]);
    assert [r0, r1][..1] == [r0] && [r0][..0] == [];
    assert SortByStart([r0]) == [r0];
  }

  lemma TwoSplices(lines: seq<string>, r0: Replacement, r1: Replacement)
    ensures SpliceAll(lines, [r0, r1]) == SpliceOne(SpliceOne(lines, r1), r0)
  {
    assert [r0, r1][1..] == [r1] && [r1][1..] == [];
    assert SpliceAll(lines, [r1]) == SpliceOne(lines, r1);
  }

  /** In a file that ends in a blank line, an insertion can be swallowed by a chunk that replaces that line. */
  lemma BlankEndInsertionLost()
    ensures var lines := ["a", ""];
      var chunks := [Chunk(None, ["a", ""], ["b"], false), Chunk(None, [], ["c"], false)];
      var rs := Replacements(lines, chunks);
      rs.Ok? && !Disjoint(rs.value) && SpliceAll(lines, rs.value) == ["b", ""]
  {
    hide Seek, Split;
    var lines := ["a", ""];
    var first, second := Chunk(None, ["a", ""], ["b"], false), Chunk(None, [], ["c"], false);
    assert lines[0..2] == ["a", ""];
    SeekExactAtStart(lines, ["a", ""], 0, false);
    var r0, r1 := Replacement(0, 2, ["b"]), Replacement(1, 0, ["c"]);
    assert PlaceChunk(lines, first, 0) == Ok((r0, 2));
    assert PlaceChunk(lines, second, 2) == Ok((r1, 2));
    TwoPlacements(lines, first, second, r0, r1, 2, 2);
    assert SpliceOne(lines, r1) == ["a", "c", ""];
    assert SpliceOne(["a", "c", ""], r0) == ["b", ""];
    TwoSplices(lines, r0, r1);
    assert !Disjoint([r0, r1]) by { assert [r0, r1][0].End() > [r0, r1][1].start; }
  }

  // --------------------------------------------------------------- file endings

  lemma {:induction false} JoinLastChar(parts: seq<string>)
    requires parts != [] && Last(parts) != ""
    ensures Join(parts, "\n") != "" && Last(Join(parts, "\n")) == Last(Last(parts))
  {
    if |parts| > 1 {
      assert parts == parts[..|parts| - 1] + [Last(parts)];
      JoinSnoc(parts[..|parts| - 1], Last(parts), "\n");
    }
  }

  /** The text is empty or ends in exactly one line feed that follows something else. */
  ghost predicate OneFinalNewline(text: string) {
    text == "" || (|text| >= 2 && Last(text) == '\n' && text[|text| - 2] != '\n')
  }

  /** An update that leaves every line as it was gives the file back exactly when the file is empty or ends in one line
      feed: it drops a blank last line, and adds a line feed where there was none. */
  lemma UnchangedLinesExactly(contents: string, chunks: seq<Chunk>)
    requires Replacements(FileLines(contents), chunks).Ok?
    requires SpliceAll(FileLines(contents), Replacements(FileLines(contents), chunks).value) == FileLines(contents)
    ensures UpdatedText(contents, chunks) == Ok(contents) <==> OneFinalNewline(contents)
  {
    hide FileLines, FileText, Replacements, SpliceAll;
    FileTextExactly(contents);
  }

  /** A file of two line feeds after its text loses the second one to an update that replaces a line by itself. */
  lemma BlankLastLineLost()
    ensures UpdatedText("a\n\n", [Chunk(None, ["a"], ["a"], false)]) == Ok("a\n") && !OneFinalNewline("a\n\n")
  {
    hide Seek, Split, Join;
    var lines, chunk, r := ["a", ""], Chunk(None, ["a"], ["a"], false), Replacement(0, 1, ["a"]);
    TwoLineFeeds();
    assert lines[0..1] == ["a"];
    SeekExactAtStart(lines, ["a"], 0, false);
    assert PlaceChunk(lines, chunk, 0) == Ok((r, 1));
    OnePlacement(lines, chunk, r, 1);
    assert SpliceOne(lines, r) == lines;
    assert [r][1..] == [] && SpliceAll(lines, [r]) == lines;
  }

  lemma TwoLineFeeds()
    ensures FileLines("a\n\n") == ["a", ""] && FileText(["a", ""]) == "a\n"
  {
    var parts := ["a", "", ""];
    assert parts[1..] == ["", ""] && ["", ""][1..] == [""] && ["a", ""][1..] == [""];
    assert Join(parts, "\n") == "a\n\n";
    SplitJoin(parts, '\n');
  }

  lemma OnePlacement(lines: seq<string>, chunk: Chunk, r: Replacement, next: nat)
    requires PlaceChunk(lines, chunk, 0) == Ok((r, next))
    ensures Replacements(lines, [chunk]) == Ok([r])
  {
    hide PlaceChunk;
    assert [chunk][1..] == [] && [r][..0] == [] && [r] + [] == [r];
    assert Placements(lines, [], next) == Ok([]);
    assert Placements(lines, [chunk], 0) == Ok([r]);
    assert SortByStart([r]) == InsertByStart(r, SortByStart([])) == [r];
  }

  lemma FileTextExactly(contents: string)
    ensures FileText(FileLines(contents)) == contents <==> OneFinalNewline(contents)
  {
    hide Split, Join;
    var parts := Split(contents, '\n');
    JoinSplit(contents, '\n');
    JoinNone();
    var front := parts[..|parts| - 1];
    assert parts == front + [Last(parts)];
    assert Last(parts) in parts;
    if Last(parts) != "" {
      JoinSnoc(parts, "", "\n");
      JoinLastChar(parts);
    } else if front == [] {
      JoinOne("");
    } else {
      JoinSnoc(front, "", "\n");
      assert Last(front) in parts;
      if Last(front) != "" {
        JoinLastChar(front);
      } else if front[..|front| - 1] == [] {
        assert front == [""];
        JoinOne("");
      } else {
        assert front == front[..|front| - 1] + [""];
        JoinSnoc(front[..|front| - 1], "", "\n");
      }
    }
  }

  lemma JoinNone()
    ensures Join([], "\n") == ""
  {}

  lemma JoinOne(s: string)
    ensures Join([s], "\n") == s
  {}
}
