// A printer for hunks and the round trip through the parser of apply-patch.ts.
module PatchRoundTrip {
  import opened JsText
  import opened PatchParser

  // ---------------------------------------------------------------- the printer

  function Prefixed(marker: char, lines: seq<string>): (r: seq<string>)
    ensures |r| == |lines|
  {
    if lines == [] then [] else [[marker] + lines[0]] + Prefixed(marker, lines[1..])
  }

  function PrintOpening(context: Option<string>): string {
    match context
    case None => EMPTY_CHANGE_CONTEXT_MARKER
    case Some(text) => CHANGE_CONTEXT_MARKER + text
  }

  function PrintEof(isEndOfFile: bool): seq<string> {
    if isEndOfFile then [EOF_MARKER] else []
  }

  function PrintChunk(c: Chunk): seq<string> {
    [PrintOpening(c.changeContext)] + Prefixed('-', c.oldLines) + Prefixed('+', c.newLines) + PrintEof(c.isEndOfFile)
  }

  function PrintChunks(cs: seq<Chunk>): seq<string> {
    if cs == [] then [] else PrintChunk(cs[0]) + PrintChunks(cs[1..])
  }

  function PrintMove(movePath: Option<string>): seq<string> {
    match movePath
    case None => []
    case Some(path) => [MOVE_TO_MARKER + path]
  }

  function PrintHunk(h: Hunk): seq<string> {
    match h
    case AddFile(path, contents) => [ADD_FILE_MARKER + path] + Prefixed('+', ToLines(contents))
    case DeleteFile(path) => [DELETE_FILE_MARKER + path]
    case UpdateFile(path, movePath, chunks) => [UPDATE_FILE_MARKER + path] + PrintMove(movePath) + PrintChunks(chunks)
  }

  function PrintBody(hs: seq<Hunk>): seq<string> {
    if hs == [] then [] else PrintHunk(hs[0]) + PrintBody(hs[1..])
  }

  function PrintPatchLines(hs: seq<Hunk>): seq<string> {
    [BEGIN_PATCH_MARKER] + PrintBody(hs) + [END_PATCH_MARKER]
  }

  function PrintPatch(hs: seq<Hunk>): string {
    Join(PrintPatchLines(hs), "\n")
  }

  /** The newline-terminated lines of a file text. */
  function ToLines(text: string): (r: seq<string>)
    ensures forall l :: l in r ==> '\n' !in l
    decreases |text|
  {
    var i := IndexOf(text, '\n');
    if i == |text| then [] else [text[..i]] + ToLines(text[i + 1..])
  }

  function UnLines(lines: seq<string>): string {
    if lines == [] then "" else lines[0] + "\n" + UnLines(lines[1..])
  }

  lemma ToLinesCons(head: string, rest: string)
    requires '\n' !in head
    ensures ToLines(head + "\n" + rest) == [head] + ToLines(rest)
  {
    hide IndexOf;
    var text := head + "\n" + rest;
    assert text == head + (['\n'] + rest);
    assert text[..|head|] == head && text[|head| + 1..] == rest;
    IndexOfUnique(text, '\n', |head|);
  }

  lemma {:induction false} ToLinesUnLines(lines: seq<string>)
    requires forall l :: l in lines ==> '\n' !in l
    ensures ToLines(UnLines(lines)) == lines
    decreases |lines|
  {
    if lines == [] {
    } else {
      assert lines[0] in lines;
      ToLinesCons(lines[0], UnLines(lines[1..]));
      hide ToLines;
      ToLinesUnLines(lines[1..]);
    }
  }

  // ---------------------------------------------------------- well-formed hunks

  ghost predicate WfPath(p: string) {
    p != "" && '\n' !in p && !IsSpace(p[|p| - 1])
  }

  ghost predicate WfLines(ls: seq<string>) {
    forall l :: l in ls ==> '\n' !in l
  }

  ghost predicate WfChunk(c: Chunk) {
    WfLines(c.oldLines) && WfLines(c.newLines) && |c.oldLines| + |c.newLines| > 0 &&
    (c.changeContext.Some? ==> '\n' !in c.changeContext.value)
  }

  ghost predicate WfHunk(h: Hunk) {
    WfPath(h.path) &&
    match h
    case AddFile(_, contents) => UnLines(ToLines(contents)) == contents
    case DeleteFile(_) => true
    case UpdateFile(_, movePath, chunks) =>
      (movePath.Some? ==> WfPath(movePath.value)) && chunks != [] && forall c :: c in chunks ==> WfChunk(c)
  }

  ghost predicate WfHunks(hs: seq<Hunk>) {
    forall h :: h in hs ==> WfHunk(h)
  }

  // ------------------------------------------------- the round trip over lines

  /** A line that ends the chunk before it: a context marker or a hunk header. */
  ghost predicate Stops(rest: seq<string>) {
    rest == [] || (rest[0] != "" && rest[0][0] in {'@', '*'} && rest[0] != EOF_MARKER)
  }

  /** A line that ends the update hunk before it. */
  ghost predicate HeaderNext(rest: seq<string>) {
    rest == [] || (StartsWith(rest[0], "*** ") && |rest[0]| > 4 && rest[0][4] in {'A', 'D', 'U'})
  }

  lemma HeaderStops(rest: seq<string>)
    requires HeaderNext(rest)
    ensures Stops(rest)
    ensures rest != [] ==> StartsWith(rest[0], "***")
  {
    if rest != [] {
      assert EOF_MARKER[4] == 'E';
      assert rest[0][0] == "*** "[0] == '*' && rest[0][1] == "*** "[1] && rest[0][2] == "*** "[2];
      assert rest[0][..3] == "***";
    }
  }

  lemma {:induction false} NonBlank(line: string)
    requires line != "" && !IsSpace(line[0])
    ensures Trim(line) != ""
  {
    TrimEndKeeps(line);
  }

  lemma {:induction false} TrimEndKeeps(line: string)
    requires line != "" && !IsSpace(line[0])
    ensures TrimEnd(line) != "" && TrimEnd(line)[0] == line[0]
    decreases |line|
  {
    if IsSpace(line[|line| - 1]) {
      assert line[..|line| - 1][0] == line[0];
      TrimEndKeeps(line[..|line| - 1]);
    }
  }

  /** One added or removed line. */
  lemma ScanOne(marker: char, line: string, rest: seq<string>, c: Chunk, parsed: nat, ln: nat)
    requires marker in {'-', '+'}
    ensures ScanChunk([[marker] + line] + rest, c, parsed, ln)
         == ScanChunk(rest, if marker == '-' then c.(oldLines := c.oldLines + [line])
           else c.(newLines := c.newLines + [line]), parsed + 1, ln)
  {
    var marked := [marker] + line;
    assert marked[0] == marker && marked[1..] == line && EOF_MARKER[0] == '*';
    assert ([marked] + rest)[0] == marked && ([marked] + rest)[1..] == rest;
  }

  lemma PrefixedSplit(marker: char, lines: seq<string>, rest: seq<string>)
    ensures Prefixed(marker, lines) + rest ==
      if lines == [] then rest else [[marker] + lines[0]] + (Prefixed(marker, lines[1..]) + rest)
  {}

  lemma {:induction false} ScanPrefixed(lines: seq<string>, rest: seq<string>, c: Chunk, parsed: nat, ln: nat)
    ensures ScanChunk(Prefixed('-', lines) + rest, c, parsed, ln)
         == ScanChunk(rest, c.(oldLines := c.oldLines + lines), parsed + |lines|, ln)
    ensures ScanChunk(Prefixed('+', lines) + rest, c, parsed, ln)
         == ScanChunk(rest, c.(newLines := c.newLines + lines), parsed + |lines|, ln)
    decreases |lines|
  {
    hide ScanChunk, Prefixed;
    PrefixedSplit('-', lines, rest);
    PrefixedSplit('+', lines, rest);
    if lines == [] {
      assert c.oldLines + lines == c.oldLines && c.newLines + lines == c.newLines;
    } else {
      ScanOne('-', lines[0], Prefixed('-', lines[1..]) + rest, c, parsed, ln);
      ScanOne('+', lines[0], Prefixed('+', lines[1..]) + rest, c, parsed, ln);
      assert c.oldLines + lines == c.oldLines + [lines[0]] + lines[1..];
      assert c.newLines + lines == c.newLines + [lines[0]] + lines[1..];
      ScanPrefixed(lines[1..], rest, c.(oldLines := c.oldLines + [lines[0]]), parsed + 1, ln);
      ScanPrefixed(lines[1..], rest, c.(newLines := c.newLines + [lines[0]]), parsed + 1, ln);
    }
  }

  lemma OpeningRoundTrip(context: Option<string>)
    ensures ChunkOpening(PrintOpening(context)) == (context, 1)
  {
    if context.Some? {
      var line := PrintOpening(context);
      assert line[|CHANGE_CONTEXT_MARKER|..] == context.value;
      assert |line| >= 3;
    }
  }

  lemma ChunkStep(lines: seq<string>, context: Option<string>, c: Chunk, n: nat, ln: nat, allowMissing: bool)
    requires |lines| > 1 && ChunkOpening(lines[0]) == (context, 1)
    requires ScanChunk(lines[1..], Chunk(context, [], [], false), 0, ln) == Ok((c, n))
    ensures ParsedChunk(lines, ln, allowMissing) == Ok((c, n + 1))
  {
    hide ScanChunk, ChunkOpening;
  }

  lemma ScanEnd(c: Chunk, rest: seq<string>, parsed: nat, ln: nat)
    requires parsed > 0 && Stops(rest) && !c.isEndOfFile
    ensures ScanChunk(rest, c, parsed, ln) == Ok((c, parsed))
    ensures ScanChunk([EOF_MARKER] + rest, c, parsed, ln) == Ok((c.(isEndOfFile := true), parsed + 1))
  {
    assert ([EOF_MARKER] + rest)[0] == EOF_MARKER;
  }

  lemma ScanPrinted(c: Chunk, rest: seq<string>, ln: nat)
    requires WfChunk(c) && Stops(rest)
    ensures ScanChunk(Prefixed('-', c.oldLines) + (Prefixed('+', c.newLines) + (PrintEof(c.isEndOfFile) + rest)),
      Chunk(c.changeContext, [], [], false), 0, ln)
         == Ok((c, |PrintChunk(c)| - 1))
  {
    hide ScanChunk;
    var empty := Chunk(c.changeContext, [], [], false);
    var eof := PrintEof(c.isEndOfFile);
    ScanPrefixed(c.oldLines, Prefixed('+', c.newLines) + (eof + rest), empty, 0, ln);
    ScanPrefixed(c.newLines, eof + rest, empty.(oldLines := [] + c.oldLines), |c.oldLines|, ln);
    assert [] + c.oldLines == c.oldLines && [] + c.newLines == c.newLines;
    ScanEnd(c.(isEndOfFile := false), rest, |c.oldLines| + |c.newLines|, ln);
    assert !c.isEndOfFile ==> eof + rest == rest;
  }

  /** Parsing what was printed for one chunk gives the chunk back and consumes exactly its lines. */
  lemma {:induction false} ChunkRoundTrip(c: Chunk, rest: seq<string>, ln: nat, allowMissing: bool)
    requires WfChunk(c) && Stops(rest)
    ensures ParsedChunk(PrintChunk(c) + rest, ln, allowMissing) == Ok((c, |PrintChunk(c)|))
  {
    hide ParsedChunk, ChunkOpening, ScanChunk, PrintOpening, Prefixed;
    var lines := PrintChunk(c) + rest;
    OpeningRoundTrip(c.changeContext);
    assert lines[0] == PrintOpening(c.changeContext);
    assert lines[1..] == Prefixed('-', c.oldLines) + (Prefixed('+', c.newLines) + (PrintEof(c.isEndOfFile) + rest));
    ScanPrinted(c, rest, ln);
    ChunkStep(lines, c.changeContext, c, |PrintChunk(c)| - 1, ln, allowMissing);
  }

  lemma OpeningFacts(c: Chunk)
    ensures PrintChunk(c) != [] && PrintChunk(c)[0] != "" && PrintChunk(c)[0][0] == '@'
    ensures Stops(PrintChunk(c)) && Trim(PrintChunk(c)[0]) != "" && !StartsWith(PrintChunk(c)[0], "***")
  {
    var line := PrintChunk(c)[0];
    assert line[0] == '@';
    assert EOF_MARKER[0] == '*' && "***"[0] == '*';
    NonBlank(line);
  }

  lemma UpdateStep(lines: seq<string>, acc: seq<Chunk>, consumed: nat, ln: nat, c: Chunk, n: nat)
    requires lines != [] && Trim(lines[0]) != "" && !StartsWith(lines[0], "***") && 0 < n <= |lines|
    requires ParsedChunk(lines, ln + consumed, acc == []) == Ok((c, n))
    ensures ScanUpdate(lines, acc, consumed, ln) == ScanUpdate(lines[n..], acc + [c], consumed + n, ln)
  {
    hide ParsedChunk, Trim;
  }

  lemma UpdateEnd(rest: seq<string>, acc: seq<Chunk>, consumed: nat, ln: nat)
    requires HeaderNext(rest)
    ensures ScanUpdate(rest, acc, consumed, ln) == Ok((acc, consumed))
  {
    hide ParsedChunk, Trim;
    if rest != [] {
      HeaderStops(rest);
      NonBlank(rest[0]);
    }
  }

  lemma {:induction false} ChunksRoundTrip(cs: seq<Chunk>, rest: seq<string>, acc: seq<Chunk>, consumed: nat, ln: nat)
    requires (forall c :: c in cs ==> WfChunk(c)) && HeaderNext(rest)
    ensures ScanUpdate(PrintChunks(cs) + rest, acc, consumed, ln) == Ok((acc + cs, consumed + |PrintChunks(cs)|))
    decreases |cs|
  {
    hide ParsedChunk, Trim, ScanUpdate, PrintChunk, PrintChunks, WfChunk, HeaderNext, Stops;
    PrintChunksSplit(cs, rest);
    if cs == [] {
      assert acc + cs == acc;
      UpdateEnd(rest, acc, consumed, ln);
    } else {
      var lines, tail := PrintChunks(cs) + rest, PrintChunks(cs[1..]) + rest;
      var n := |PrintChunk(cs[0])|;
      OpeningFacts(cs[0]);
      ChunksThenRest(cs[1..], rest);
      ChunkRoundTrip(cs[0], tail, ln + consumed, acc == []);
      UpdateStep(lines, acc, consumed, ln, cs[0], n);
      ChunksRoundTrip(cs[1..], rest, acc + [cs[0]], consumed + n, ln);
      assert acc + cs == acc + [cs[0]] + cs[1..];
    }
  }

  lemma PrintChunksSplit(cs: seq<Chunk>, rest: seq<string>)
    ensures cs == [] ==> PrintChunks(cs) == [] && PrintChunks(cs) + rest == rest
    ensures cs != [] ==>
      var lines, tail, n := PrintChunks(cs) + rest, PrintChunks(cs[1..]) + rest, |PrintChunk(cs[0])|;
      lines == PrintChunk(cs[0]) + tail && lines[n..] == tail && n > 0 && lines[0] == PrintChunk(cs[0])[0] &&
      |PrintChunks(cs)| == n + |PrintChunks(cs[1..])|
  {
    hide PrintChunk;
    if cs == [] {
      assert PrintChunks(cs) == [];
    } else {
      OpeningFacts(cs[0]);
      FrontThenRest(PrintChunk(cs[0]), PrintChunks(cs[1..]), rest);
    }
  }

  lemma FrontThenRest(front: seq<string>, middle: seq<string>, rest: seq<string>)
    requires front != []
    ensures var lines := front + middle + rest;
      lines == front + (middle + rest) && lines[|front|..] == middle + rest && lines[0] == front[0]
  {}

  lemma ChunksThenRest(cs: seq<Chunk>, rest: seq<string>)
    requires HeaderNext(rest)
    ensures Stops(PrintChunks(cs) + rest)
  {
    HeaderStops(rest);
    if cs == [] {
      assert PrintChunks(cs) + rest == rest;
    } else {
      OpeningFacts(cs[0]);
      assert (PrintChunks(cs) + rest)[0] == PrintChunk(cs[0])[0];
    }
  }

  lemma {:induction false} AddedRoundTrip(lines: seq<string>, rest: seq<string>)
    requires rest == [] || !StartsWith(rest[0], "+")
    ensures AddedText(Prefixed('+', lines) + rest) == UnLines(lines)
    ensures AddedCount(Prefixed('+', lines) + rest) == |lines|
    decreases |lines|
  {
    if lines == [] {
      assert Prefixed('+', lines) + rest == rest;
    } else {
      var plus := ['+'] + lines[0];
      assert plus[1..] == lines[0];
      assert Prefixed('+', lines) + rest == [plus] + (Prefixed('+', lines[1..]) + rest);
      AddedRoundTrip(lines[1..], rest);
    }
  }

  lemma HeaderFixed(marker: string, path: string)
    requires marker != "" && marker[0] == '*' && WfPath(path)
    ensures Trim(marker + path) == marker + path
    ensures StartsWith(marker + path, marker) && (marker + path)[|marker|..] == path
  {
    hide Trim;
    var line := marker + path;
    assert line[0] == '*' && line[|line| - 1] == path[|path| - 1];
    TrimFixed(line);
  }

  lemma PrintedMove(h: Hunk, rest: seq<string>)
    requires h.UpdateFile? && WfHunk(h)
    ensures MoveTarget(PrintMove(h.movePath) + PrintChunks(h.chunks) + rest) == h.movePath
  {
    var lines := PrintMove(h.movePath) + PrintChunks(h.chunks) + rest;
    if h.movePath.Some? {
      HeaderFixed(MOVE_TO_MARKER, h.movePath.value);
      assert lines[0] == MOVE_TO_MARKER + h.movePath.value;
    } else {
      OpeningFacts(h.chunks[0]);
      assert lines[0] == PrintChunk(h.chunks[0])[0];
      OpeningNotMove(lines[0]);
    }
  }

  lemma HunkStep(lines: seq<string>, path: string, move: Option<string>, chunks: seq<Chunk>, consumed: nat, ln: nat)
    requires lines != [] && lines[0] == UPDATE_FILE_MARKER + path && WfPath(path)
    requires MoveTarget(lines[1..]) == move && chunks != []
    requires var start := if move.Some? then 2 else 1;
      start <= |lines| && ScanUpdate(lines[start..], [], start, ln) == Ok((chunks, consumed))
    ensures ParsedHunk(lines, ln) == Ok((UpdateFile(path, move, chunks), consumed))
  {
    hide ScanUpdate, MoveTarget, Trim;
    HeaderFixed(UPDATE_FILE_MARKER, path);
    DistinctMarkers(path);
  }

  lemma PrintedUpdateSplit(h: Hunk, rest: seq<string>)
    requires h.UpdateFile?
    ensures var lines, move := PrintHunk(h) + rest, PrintMove(h.movePath);
      |PrintHunk(h)| == 1 + |move| + |PrintChunks(h.chunks)| && lines[0] == UPDATE_FILE_MARKER + h.path &&
      lines[1..] == move + PrintChunks(h.chunks) + rest && lines[1 + |move|..] == PrintChunks(h.chunks) + rest
  {
    hide PrintChunks;
  }

  lemma {:induction false} UpdateRoundTrip(h: Hunk, rest: seq<string>, ln: nat)
    requires h.UpdateFile? && WfHunk(h) && HeaderNext(rest)
    ensures ParsedHunk(PrintHunk(h) + rest, ln) == Ok((h, |PrintHunk(h)|))
  {
    hide ParsedHunk, ScanUpdate, MoveTarget, PrintChunks, HeaderNext;
    var lines, body := PrintHunk(h) + rest, PrintChunks(h.chunks) + rest;
    var move := PrintMove(h.movePath);
    var start := 1 + |move|;
    PrintedUpdateSplit(h, rest);
    PrintedMove(h, rest);
    ChunksRoundTrip(h.chunks, rest, [], start, ln);
    assert [] + h.chunks == h.chunks;
    HunkStep(lines, h.path, h.movePath, h.chunks, |PrintHunk(h)|, ln);
  }

  lemma OpeningNotMove(line: string)
    requires line != "" && line[0] == '@'
    ensures !StartsWith(Trim(line), MOVE_TO_MARKER)
  {
    TrimEndKeeps(line);
    assert MOVE_TO_MARKER[0] == '*';
  }

  lemma DistinctMarkers(path: string)
    ensures !StartsWith(DELETE_FILE_MARKER + path, ADD_FILE_MARKER)
    ensures !StartsWith(UPDATE_FILE_MARKER + path, ADD_FILE_MARKER)
    ensures !StartsWith(UPDATE_FILE_MARKER + path, DELETE_FILE_MARKER)
  {
    assert (DELETE_FILE_MARKER + path)[4] == 'D' && (UPDATE_FILE_MARKER + path)[4] == 'U';
    assert ADD_FILE_MARKER[4] == 'A' && DELETE_FILE_MARKER[4] == 'D';
  }

  lemma {:induction false} AddRoundTrip(h: Hunk, rest: seq<string>, ln: nat)
    requires h.AddFile? && WfHunk(h) && HeaderNext(rest)
    ensures ParsedHunk(PrintHunk(h) + rest, ln) == Ok((h, |PrintHunk(h)|))
  {
    hide Trim, AddedText, AddedCount, ToLines, UnLines;
    var lines := PrintHunk(h) + rest;
    HeaderFixed(ADD_FILE_MARKER, h.path);
    assert lines[0] == ADD_FILE_MARKER + h.path;
    assert lines[1..] == Prefixed('+', ToLines(h.contents)) + rest;
    HeaderStops(rest);
    AddedRoundTrip(ToLines(h.contents), rest);
  }

  lemma {:induction false} DeleteRoundTrip(h: Hunk, rest: seq<string>, ln: nat)
    requires h.DeleteFile? && WfHunk(h)
    ensures ParsedHunk(PrintHunk(h) + rest, ln) == Ok((h, |PrintHunk(h)|))
  {
    hide Trim;
    HeaderFixed(DELETE_FILE_MARKER, h.path);
    DistinctMarkers(h.path);
    assert (PrintHunk(h) + rest)[0] == DELETE_FILE_MARKER + h.path;
  }

  /** Parsing what was printed for one hunk gives the hunk back and consumes exactly its lines. */
  lemma {:induction false} HunkRoundTrip(h: Hunk, rest: seq<string>, ln: nat)
    requires WfHunk(h) && HeaderNext(rest)
    ensures ParsedHunk(PrintHunk(h) + rest, ln) == Ok((h, |PrintHunk(h)|))
  {
    hide ParsedHunk, PrintHunk, WfHunk;
    match h
    case AddFile(_, _) => AddRoundTrip(h, rest, ln);
    case DeleteFile(_) => DeleteRoundTrip(h, rest, ln);
    case UpdateFile(_, _, _) => UpdateRoundTrip(h, rest, ln);
  }

  lemma PrintedHeader(hs: seq<Hunk>)
    ensures HeaderNext(PrintBody(hs))
  {
    hide PrintChunks, Prefixed, ToLines;
    if hs != [] {
      var line := PrintHunk(hs[0])[0];
      assert ADD_FILE_MARKER[..4] == "*** " && DELETE_FILE_MARKER[..4] == "*** " && UPDATE_FILE_MARKER[..4] == "*** ";
      assert line[..4] == "*** ";
      assert PrintBody(hs)[0] == line;
    }
  }

  lemma PrintBodySplit(hs: seq<Hunk>)
    ensures if hs == [] then PrintBody(hs) == []
      else
        PrintBody(hs) == PrintHunk(hs[0]) + PrintBody(hs[1..]) && PrintHunk(hs[0]) != [] &&
        PrintBody(hs)[|PrintHunk(hs[0])|..] == PrintBody(hs[1..])
  {
    hide PrintChunks, Prefixed;
  }

  lemma {:induction false} BodyRoundTrip(hs: seq<Hunk>, ln: nat)
    requires WfHunks(hs)
    ensures var r := ParsedHunks(PrintBody(hs), ln); r.Ok? && Hunks(r.value) == hs
    decreases |hs|
  {
    hide ParsedHunk, PrintHunk, PrintBody, HeaderNext, WfHunk;
    PrintBodySplit(hs);
    if hs == [] {
    } else {
      var n := |PrintHunk(hs[0])|;
      PrintedHeader(hs[1..]);
      assert hs[0] in hs;
      HunkRoundTrip(hs[0], PrintBody(hs[1..]), ln);
      BodyRoundTrip(hs[1..], ln + n);
    }
  }

  // --------------------------------------------------- the round trip over text

  function StripAll(lines: seq<string>): (r: seq<string>)
    ensures |r| == |lines|
  {
    if lines == [] then [] else [StripCr(lines[0])] + StripAll(lines[1..])
  }

  function StripChunk(c: Chunk): Chunk {
    var context := if c.changeContext.Some? then Some(StripCr(c.changeContext.value)) else None;
    Chunk(context, StripAll(c.oldLines), StripAll(c.newLines), c.isEndOfFile)
  }

  function StripChunks(cs: seq<Chunk>): (r: seq<Chunk>)
    ensures |r| == |cs|
  {
    if cs == [] then [] else [StripChunk(cs[0])] + StripChunks(cs[1..])
  }

  function StripHunk(h: Hunk): Hunk {
    match h
    case AddFile(path, contents) => AddFile(path, UnLines(StripAll(ToLines(contents))))
    case DeleteFile(_) => h
    case UpdateFile(path, movePath, chunks) => UpdateFile(path, movePath, StripChunks(chunks))
  }

  /** The hunks with one trailing carriage return taken off every line that has one. */
  function StripHunks(hs: seq<Hunk>): (r: seq<Hunk>)
    ensures |r| == |hs|
  {
    if hs == [] then [] else [StripHunk(hs[0])] + StripHunks(hs[1..])
  }

  lemma {:induction false} StripAppend(a: seq<string>, b: seq<string>)
    ensures StripAll(a + b) == StripAll(a) + StripAll(b)
    decreases |a|
  {
    if a == [] {
      assert a + b == b;
    } else {
      assert (a + b)[1..] == a[1..] + b;
      StripAppend(a[1..], b);
    }
  }

  lemma {:induction false} StripKeepsLines(lines: seq<string>)
    requires WfLines(lines)
    ensures WfLines(StripAll(lines))
    decreases |lines|
  {
    if lines == [] {
    } else {
      StripKeepsLines(lines[1..]);
      assert lines[0] in lines;
      assert forall c :: c in StripCr(lines[0]) ==> c in lines[0];
    }
  }

  lemma {:induction false} StripPrefixed(marker: char, lines: seq<string>)
    requires marker != '\r'
    ensures StripAll(Prefixed(marker, lines)) == Prefixed(marker, StripAll(lines))
    decreases |lines|
  {
    if lines == [] {
    } else {
      var line := [marker] + lines[0];
      StripPrefixed(marker, lines[1..]);
      assert StripCr(line) == [marker] + StripCr(lines[0]);
      assert Prefixed(marker, lines)[1..] == Prefixed(marker, lines[1..]);
      assert StripAll(lines)[1..] == StripAll(lines[1..]);
    }
  }

  lemma StripOne(line: string)
    ensures StripAll([line]) == [StripCr(line)]
  {}

  lemma StripOpening(context: Option<string>)
    ensures StripCr(PrintOpening(context)) == PrintOpening(if context.Some? then Some(StripCr(context.value)) else None)
  {
    match context
    case None => assert EMPTY_CHANGE_CONTEXT_MARKER[1] == '@';
    case Some(text) =>
      var line := CHANGE_CONTEXT_MARKER + text;
      assert CHANGE_CONTEXT_MARKER[2] == ' ';
      if text == "" {
        assert line == CHANGE_CONTEXT_MARKER;
      } else {
        assert line[|line| - 1] == text[|text| - 1];
        assert line[..|line| - 1] == CHANGE_CONTEXT_MARKER + text[..|text| - 1];
      }
  }

  lemma {:induction false} StripPrintChunk(c: Chunk)
    ensures StripAll(PrintChunk(c)) == PrintChunk(StripChunk(c))
  {
    hide StripAll, Prefixed, PrintOpening, StripCr;
    var opening, minus, plus, eof := [PrintOpening(c.changeContext)], Prefixed('-', c.oldLines),
      Prefixed('+', c.newLines), PrintEof(c.isEndOfFile);
    StripAppend(opening + minus + plus, eof);
    StripAppend(opening + minus, plus);
    StripAppend(opening, minus);
    StripOne(opening[0]);
    StripOpening(c.changeContext);
    StripPrefixed('-', c.oldLines);
    StripPrefixed('+', c.newLines);
    StripEof(c.isEndOfFile);
  }

  lemma StripEof(isEndOfFile: bool)
    ensures StripAll(PrintEof(isEndOfFile)) == PrintEof(isEndOfFile)
  {
    assert EOF_MARKER[14] == 'e' && |EOF_MARKER| == 15;
  }

  lemma {:induction false} StripPrintChunks(cs: seq<Chunk>)
    ensures StripAll(PrintChunks(cs)) == PrintChunks(StripChunks(cs))
    decreases |cs|
  {
    hide PrintChunk, StripChunk;
    if cs == [] {
    } else {
      StripAppend(PrintChunk(cs[0]), PrintChunks(cs[1..]));
      StripPrintChunk(cs[0]);
      StripPrintChunks(cs[1..]);
    }
  }

  lemma StripHeader(marker: string, path: string)
    requires WfPath(path)
    ensures StripAll([marker + path]) == [marker + path]
  {
    var line := marker + path;
    assert line[|line| - 1] == path[|path| - 1];
    StripOne(line);
  }

  lemma {:induction false} StripPrintHunk(h: Hunk)
    requires WfHunk(h)
    ensures StripAll(PrintHunk(h)) == PrintHunk(StripHunk(h))
  {
    hide StripAll, Prefixed, StripCr, PrintChunks, StripChunks, ToLines, UnLines;
    match h
    case AddFile(path, contents) =>
      StripAppend([ADD_FILE_MARKER + path], Prefixed('+', ToLines(contents)));
      StripHeader(ADD_FILE_MARKER, path);
      StripPrefixed('+', ToLines(contents));
      StripKeepsLines(ToLines(contents));
      ToLinesUnLines(StripAll(ToLines(contents)));
    case DeleteFile(path) =>
      StripHeader(DELETE_FILE_MARKER, path);
    case UpdateFile(path, movePath, chunks) =>
      StripAppend([UPDATE_FILE_MARKER + path] + PrintMove(movePath), PrintChunks(chunks));
      StripAppend([UPDATE_FILE_MARKER + path], PrintMove(movePath));
      StripHeader(UPDATE_FILE_MARKER, path);
      StripMove(movePath);
      StripPrintChunks(chunks);
  }

  lemma StripMove(movePath: Option<string>)
    requires movePath.Some? ==> WfPath(movePath.value)
    ensures StripAll(PrintMove(movePath)) == PrintMove(movePath)
  {
    if movePath.Some? {
      StripHeader(MOVE_TO_MARKER, movePath.value);
    }
  }

  lemma {:induction false} StripPrintBody(hs: seq<Hunk>)
    requires WfHunks(hs)
    ensures StripAll(PrintBody(hs)) == PrintBody(StripHunks(hs))
    decreases |hs|
  {
    hide PrintHunk, StripHunk, WfHunk;
    if hs == [] {
    } else {
      StripAppend(PrintHunk(hs[0]), PrintBody(hs[1..]));
      StripPrintHunk(hs[0]);
      StripPrintBody(hs[1..]);
    }
  }

  lemma {:induction false} StripChunksWf(cs: seq<Chunk>)
    requires forall c :: c in cs ==> WfChunk(c)
    ensures forall c :: c in StripChunks(cs) ==> WfChunk(c)
    decreases |cs|
  {
    if cs == [] {
    } else {
      assert WfChunk(cs[0]);
      StripKeepsLines(cs[0].oldLines);
      StripKeepsLines(cs[0].newLines);
      assert cs[0].changeContext.Some? ==> forall c :: c in StripCr(cs[0].changeContext.value) ==>
        c in cs[0].changeContext.value;
      StripChunksWf(cs[1..]);
    }
  }

  lemma {:induction false} StripHunksWf(hs: seq<Hunk>)
    requires WfHunks(hs)
    ensures WfHunks(StripHunks(hs))
    decreases |hs|
  {
    if hs == [] {
    } else {
      assert WfHunk(hs[0]);
      match hs[0] {
        case AddFile(path, contents) =>
          StripKeepsLines(ToLines(contents));
          ToLinesUnLines(StripAll(ToLines(contents)));
        case DeleteFile(_) =>
        case UpdateFile(_, _, chunks) =>
          StripChunksWf(chunks);
      }
      assert WfHunk(StripHunk(hs[0]));
      StripHunksWf(hs[1..]);
    }
  }

  lemma {:induction false} SplitLinesJoin(lines: seq<string>)
    requires lines != [] && WfLines(lines) && StripCr(lines[|lines| - 1]) == lines[|lines| - 1]
    ensures SplitLines(Join(lines, "\n")) == StripAll(lines)
    decreases |lines|
  {
    var text := Join(lines, "\n");
    if |lines| == 1 {
      assert text[..|text|] == text;
      IndexOfUnique(text, '\n', |text|);
      StripOne(lines[0]);
    } else {
      var k := |lines[0]|;
      assert text == lines[0] + (['\n'] + Join(lines[1..], "\n"));
      assert text[..k] == lines[0] && text[k + 1..] == Join(lines[1..], "\n");
      IndexOfUnique(text, '\n', k);
      SplitLinesJoin(lines[1..]);
    }
  }

  lemma {:induction false} PrefixedWf(marker: char, lines: seq<string>)
    requires marker != '\n' && WfLines(lines)
    ensures WfLines(Prefixed(marker, lines))
    decreases |lines|
  {
    if lines == [] {
    } else {
      PrefixedWf(marker, lines[1..]);
    }
  }

  lemma {:induction false} PrintChunksWf(cs: seq<Chunk>)
    requires forall c :: c in cs ==> WfChunk(c)
    ensures WfLines(PrintChunks(cs))
    decreases |cs|
  {
    if cs == [] {
    } else {
      assert WfChunk(cs[0]);
      PrefixedWf('-', cs[0].oldLines);
      PrefixedWf('+', cs[0].newLines);
      assert '\n' !in EOF_MARKER && '\n' !in EMPTY_CHANGE_CONTEXT_MARKER && '\n' !in CHANGE_CONTEXT_MARKER;
      PrintChunksWf(cs[1..]);
    }
  }

  lemma {:induction false} PrintHunkWf(h: Hunk)
    requires WfHunk(h)
    ensures WfLines(PrintHunk(h))
  {
    hide ToLines, UnLines, Prefixed, PrintChunks;
    assert '\n' !in ADD_FILE_MARKER && '\n' !in DELETE_FILE_MARKER && '\n' !in UPDATE_FILE_MARKER &&
      '\n' !in MOVE_TO_MARKER;
    match h
    case AddFile(_, contents) => PrefixedWf('+', ToLines(contents));
    case DeleteFile(_) =>
    case UpdateFile(_, _, chunks) => PrintChunksWf(chunks);
  }

  lemma {:induction false} PrintBodyWf(hs: seq<Hunk>)
    requires WfHunks(hs)
    ensures WfLines(PrintBody(hs))
    decreases |hs|
  {
    hide PrintHunk, WfHunk;
    if hs == [] {
    } else {
      PrintHunkWf(hs[0]);
      PrintBodyWf(hs[1..]);
    }
  }

  lemma {:induction false} JoinEnds(lines: seq<string>, sep: string)
    requires lines != [] && lines[0] != "" && lines[|lines| - 1] != ""
    ensures var text := Join(lines, sep); var last := lines[|lines| - 1];
      text != "" && text[0] == lines[0][0] && text[|text| - 1] == last[|last| - 1]
    decreases |lines|
  {
    if |lines| > 1 {
      var rest := lines[1..];
      if |rest| > 1 || rest[0] != "" {
        JoinLast(rest, sep);
      }
    }
  }

  lemma {:induction false} JoinLast(lines: seq<string>, sep: string)
    requires lines != [] && lines[|lines| - 1] != ""
    ensures var text := Join(lines, sep); var last := lines[|lines| - 1];
      text != "" && text[|text| - 1] == last[|last| - 1]
    decreases |lines|
  {
    if |lines| > 1 {
      JoinLast(lines[1..], sep);
    }
  }

  lemma PrintedText(hs: seq<Hunk>)
    requires WfHunks(hs)
    ensures Trim(PrintPatch(hs)) == PrintPatch(hs) && PrintPatch(hs) != ""
    ensures SplitLines(PrintPatch(hs)) == PrintPatchLines(StripHunks(hs))
  {
    hide PrintBody, SplitLines, Join, Trim, StripAll, WfHunks;
    var lines := PrintPatchLines(hs);
    assert BEGIN_PATCH_MARKER[0] == '*' && END_PATCH_MARKER[12] == 'h' && |END_PATCH_MARKER| == 13;
    JoinEnds(lines, "\n");
    TrimFixed(PrintPatch(hs));
    PrintBodyWf(hs);
    assert '\n' !in BEGIN_PATCH_MARKER && '\n' !in END_PATCH_MARKER;
    SplitLinesJoin(lines);
    StripAppend([BEGIN_PATCH_MARKER] + PrintBody(hs), [END_PATCH_MARKER]);
    StripAppend([BEGIN_PATCH_MARKER], PrintBody(hs));
    StripMarkers();
    StripPrintBody(hs);
  }

  lemma StripMarkers()
    ensures StripAll([BEGIN_PATCH_MARKER]) == [BEGIN_PATCH_MARKER]
    ensures StripAll([END_PATCH_MARKER]) == [END_PATCH_MARKER]
    ensures Trim(BEGIN_PATCH_MARKER) == BEGIN_PATCH_MARKER && Trim(END_PATCH_MARKER) == END_PATCH_MARKER
  {
    hide Trim;
    assert BEGIN_PATCH_MARKER[14] == 'h' && |BEGIN_PATCH_MARKER| == 15 && END_PATCH_MARKER[12] == 'h' &&
      |END_PATCH_MARKER| == 13;
    assert BEGIN_PATCH_MARKER[0] == '*' && END_PATCH_MARKER[0] == '*';
    StripOne(BEGIN_PATCH_MARKER);
    StripOne(END_PATCH_MARKER);
    TrimFixed(BEGIN_PATCH_MARKER);
    TrimFixed(END_PATCH_MARKER);
  }

  /** Parsing a printed patch gives the same hunks, up to one trailing carriage return per line. */
  lemma {:induction false} PrintedPatchParses(hs: seq<Hunk>)
    requires WfHunks(hs)
    ensures ParsedPatchText(PrintPatch(hs)) == Ok(ParsedPatch(StripHunks(hs), PrintPatch(StripHunks(hs))))
  {
    hide Trim, SplitLines, ParsedHunks, PrintBody, WfHunks, StripHunks;
    var stripped := StripHunks(hs);
    var lines := PrintPatchLines(stripped);
    PrintedText(hs);
    StripMarkers();
    assert lines[0] == BEGIN_PATCH_MARKER && lines[|lines| - 1] == END_PATCH_MARKER;
    assert StrictBoundaryError(lines) == None;
    assert lines[1..|lines| - 1] == PrintBody(stripped);
    StripHunksWf(hs);
    BodyRoundTrip(stripped, 2);
  }
}
