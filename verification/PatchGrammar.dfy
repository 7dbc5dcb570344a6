// A grammar of the patches of apply-patch.ts, which says what lines mean without
// scanning them, and the parser's agreement with it in both directions.
module PatchGrammar {
  import opened JsText
  import opened PatchParser

  // -------------------------------------------------------------------- chunks

  /** A line of a chunk's body: blank, or marked as kept, added or removed. */
  predicate ChunkLine(line: string) {
    line == "" || line[0] == ' ' || line[0] == '+' || line[0] == '-'
  }

  function Unmarked(line: string): string {
    if line == "" then "" else line[1..]
  }

  /** What the chunk finds in the file: all its lines but the added ones. */
  function Before(body: seq<string>): seq<string> {
    if body == [] then [] else
    (if body[0] != "" && body[0][0] == '+' then [] else [Unmarked(body[0])]) + Before(body[1..])
  }

  /** What the chunk leaves in the file: all its lines but the removed ones. */
  function After(body: seq<string>): seq<string> {
    if body == [] then [] else
    (if body[0] != "" && body[0][0] == '-' then [] else [Unmarked(body[0])]) + After(body[1..])
  }

  /** The line opens a chunk, and may name its context. */
  predicate Opens(line: string) {
    line == EMPTY_CHANGE_CONTEXT_MARKER || CHANGE_CONTEXT_MARKER <= line
  }

  function Named(line: string): Option<string> {
    if CHANGE_CONTEXT_MARKER <= line then Some(line[|CHANGE_CONTEXT_MARKER|..]) else None
  }

  /** Where the body of a chunk begins. */
  function BodyStart(lines: seq<string>): nat {
    if lines != [] && Opens(lines[0]) then 1 else 0
  }

  /** The first `n` lines are the chunk: an opening line, which only the first chunk of its hunk may leave out, as many
      body lines as follow it, and an end-of-file marker if that comes next. */
  ghost predicate ChunkReads(lines: seq<string>, first: bool, c: Chunk, n: nat) {
    var start, end: int := BodyStart(lines), if c.isEndOfFile then n - 1 else n;
    lines != [] && (Opens(lines[0]) || first) && c.changeContext == Named(lines[0]) &&
    start < end && n <= |lines| && (forall k :: start <= k < end ==> ChunkLine(lines[k])) &&
    (end < |lines| ==> !ChunkLine(lines[end])) && (c.isEndOfFile <==> end < |lines| && lines[end] == EOF_MARKER) &&
    c.oldLines == Before(lines[start..end]) && c.newLines == After(lines[start..end])
  }

  /** How many leading lines are body lines. */
  ghost function BodyLength(lines: seq<string>): (n: nat)
    ensures n <= |lines| && (n < |lines| ==> !ChunkLine(lines[n])) && forall k :: 0 <= k < n ==> ChunkLine(lines[k])
  {
    if lines == [] || !ChunkLine(lines[0]) then 0 else 1 + BodyLength(lines[1..])
  }

  /** The scan, in one step: the body lines, then what comes next. */
  ghost function Scanned(lines: seq<string>, chunk: Chunk, parsed: nat, ln: nat): Result<(Chunk, nat), ParseError> {
    var k := BodyLength(lines);
    var whole := chunk.(oldLines := chunk.oldLines + Before(lines[..k]),
      newLines := chunk.newLines + After(lines[..k]));
    if k < |lines| && lines[k] == EOF_MARKER then
      if parsed + k == 0 then Err(NoChunkLines(ln + 1)) else Ok((whole.(isEndOfFile := true), parsed + k + 1))
    else if k < |lines| && parsed + k == 0 then Err(UnexpectedLine(ln + 1, lines[0]))
    else Ok((whole, parsed + k))
  }

  /** The chunk with one more line. */
  ghost function Grown(chunk: Chunk, line: string): Chunk {
    chunk.(oldLines := chunk.oldLines + Before([line]), newLines := chunk.newLines + After([line]))
  }

  lemma OneLine(line: string)
    ensures Before([line]) == if line != "" && line[0] == '+' then [] else [Unmarked(line)]
    ensures After([line]) == if line != "" && line[0] == '-' then [] else [Unmarked(line)]
  {
    assert [line][1..] == [];
  }

  lemma ScanStep(lines: seq<string>, chunk: Chunk, parsed: nat, ln: nat)
    requires lines != [] && ChunkLine(lines[0])
    ensures ScanChunk(lines, chunk, parsed, ln) == ScanChunk(lines[1..], Grown(chunk, lines[0]), parsed + 1, ln)
  {
    hide Before, After;
    OneLine(lines[0]);
    assert EOF_MARKER[0] == '*';
    assert chunk.oldLines + [] == chunk.oldLines && chunk.newLines + [] == chunk.newLines;
  }

  lemma LinesCons(line: string, rest: seq<string>)
    ensures Before([line] + rest) == Before([line]) + Before(rest)
    ensures After([line] + rest) == After([line]) + After(rest)
  {
    OneLine(line);
    assert ([line] + rest)[1..] == rest;
  }

  lemma BodyCons(lines: seq<string>)
    requires lines != [] && ChunkLine(lines[0])
    ensures var k, rest := BodyLength(lines), lines[1..];
      k == 1 + BodyLength(rest) &&
      Before(lines[..k]) == Before([lines[0]]) + Before(rest[..k - 1]) &&
      After(lines[..k]) == After([lines[0]]) + After(rest[..k - 1])
  {
    hide ChunkLine, Before, After;
    var k := BodyLength(lines);
    LinesCons(lines[0], lines[1..][..k - 1]);
    assert lines[..k] == [lines[0]] + lines[1..][..k - 1];
  }

  lemma ScannedStep(lines: seq<string>, chunk: Chunk, parsed: nat, ln: nat)
    requires lines != [] && ChunkLine(lines[0])
    ensures Scanned(lines, chunk, parsed, ln) == Scanned(lines[1..], Grown(chunk, lines[0]), parsed + 1, ln)
  {
    hide Before, After, ChunkLine, BodyLength;
    BodyCons(lines);
    var k, line := BodyLength(lines), lines[0];
    assert chunk.oldLines + Before([line]) + Before(lines[1..][..k - 1]) == chunk.oldLines + Before(lines[..k]);
    assert chunk.newLines + After([line]) + After(lines[1..][..k - 1]) == chunk.newLines + After(lines[..k]);
  }

  lemma ScanStops(lines: seq<string>, chunk: Chunk, parsed: nat, ln: nat)
    requires lines == [] || !ChunkLine(lines[0])
    ensures ScanChunk(lines, chunk, parsed, ln) == Scanned(lines, chunk, parsed, ln)
  {
    assert Before(lines[..0]) == [] && After(lines[..0]) == [];
    assert chunk.oldLines + [] == chunk.oldLines && chunk.newLines + [] == chunk.newLines;
  }

  lemma {:induction false} ScanIsScanned(lines: seq<string>, chunk: Chunk, parsed: nat, ln: nat)
    ensures ScanChunk(lines, chunk, parsed, ln) == Scanned(lines, chunk, parsed, ln)
    decreases |lines|
  {
    hide ScanChunk, Scanned, ChunkLine, Grown;
    if lines == [] || !ChunkLine(lines[0]) {
      ScanStops(lines, chunk, parsed, ln);
    } else {
      ScanStep(lines, chunk, parsed, ln);
      ScannedStep(lines, chunk, parsed, ln);
      ScanIsScanned(lines[1..], Grown(chunk, lines[0]), parsed + 1, ln);
    }
  }

  lemma OpeningReads(line: string)
    ensures ChunkOpening(line) == (Named(line), if Opens(line) then 1 else 0)
  {
    assert |EMPTY_CHANGE_CONTEXT_MARKER| == 2 && |CHANGE_CONTEXT_MARKER| == 3;
  }

  /** The body lines behind an opening, by their positions among all lines. */
  lemma BodyWithin(lines: seq<string>, start: nat)
    requires start <= |lines|
    ensures var end := start + BodyLength(lines[start..]);
      end <= |lines| && (forall k :: start <= k < end ==> ChunkLine(lines[k])) &&
      (end < |lines| ==> !ChunkLine(lines[end]))
  {
    hide ChunkLine;
    var rest := lines[start..];
    assert forall k :: start <= k < |lines| ==> lines[k] == rest[k - start];
  }

  /** The body of a chunk that reads ends where the body lines end. */
  lemma ReadBody(lines: seq<string>, first: bool, c: Chunk, n: nat)
    requires ChunkReads(lines, first, c, n)
    ensures var start, end := BodyStart(lines), if c.isEndOfFile then n - 1 else n;
      start < |lines| && end == start + BodyLength(lines[start..])
  {
    hide ChunkLine, Opens, Before, After, BodyLength;
    BodyWithin(lines, BodyStart(lines));
  }

  /** What the parser returns, in terms of the body lines. */
  lemma ParsedBody(lines: seq<string>, ln: nat, first: bool)
    requires lines != [] && (Opens(lines[0]) || first) && BodyStart(lines) < |lines|
    ensures var start := BodyStart(lines);
      var k := BodyLength(lines[start..]);
      var end, r := start + k, ParsedChunk(lines, ln, first);
      var eof := end < |lines| && lines[end] == EOF_MARKER;
      var body := lines[start..end];
      (r.Ok? <==> k > 0) &&
      (r.Ok? ==> r.value == (Chunk(Named(lines[0]), Before(body), After(body), eof), if eof then end + 1 else end))
  {
    hide ScanChunk, ChunkOpening, Opens, Before, After, ChunkLine, BodyLength;
    var start := BodyStart(lines);
    OpeningReads(lines[0]);
    var rest := lines[start..];
    ScanIsScanned(rest, Chunk(Named(lines[0]), [], [], false), 0, ln);
    var k := BodyLength(rest);
    assert rest[..k] == lines[start..start + k] && (k < |rest| ==> rest[k] == lines[start + k]);
    assert [] + Before(rest[..k]) == Before(rest[..k]) && [] + After(rest[..k]) == After(rest[..k]);
  }

  lemma ChunkOpens(lines: seq<string>, ln: nat, first: bool)
    requires ParsedChunk(lines, ln, first).Ok?
    ensures lines != [] && (Opens(lines[0]) || first) && BodyStart(lines) < |lines|
  {
    hide ScanChunk, ChunkOpening, Opens;
    if lines != [] {
      OpeningReads(lines[0]);
    }
  }

  lemma ParsedReads(lines: seq<string>, ln: nat, first: bool)
    requires ParsedChunk(lines, ln, first).Ok?
    ensures var (c, n) := ParsedChunk(lines, ln, first).value; ChunkReads(lines, first, c, n)
  {
    hide ParsedChunk, Opens, Before, After, ChunkLine, BodyLength;
    ChunkOpens(lines, ln, first);
    ParsedBody(lines, ln, first);
    BodyWithin(lines, BodyStart(lines));
  }

  lemma ReadsParsed(lines: seq<string>, ln: nat, first: bool, c: Chunk, n: nat)
    requires ChunkReads(lines, first, c, n)
    ensures ParsedChunk(lines, ln, first) == Ok((c, n))
  {
    hide ParsedChunk, Opens, Before, After, ChunkLine, BodyLength;
    ReadBody(lines, first, c, n);
    ParsedBody(lines, ln, first);
  }

  /** A chunk is read as the grammar says, and in no other way. */
  lemma ChunkExactly(lines: seq<string>, ln: nat, first: bool, c: Chunk, n: nat)
    ensures ParsedChunk(lines, ln, first) == Ok((c, n)) <==> ChunkReads(lines, first, c, n)
  {
    hide ParsedChunk, ChunkReads;
    if ChunkReads(lines, first, c, n) {
      ReadsParsed(lines, ln, first, c, n);
    }
    if ParsedChunk(lines, ln, first).Ok? {
      ParsedReads(lines, ln, first);
    }
  }

  /** A chunk is refused exactly when its opening is missing, or no body line comes first; the errors say which. */
  lemma ChunkRefusedExactly(lines: seq<string>, ln: nat, first: bool)
    ensures var r, start := ParsedChunk(lines, ln, first), BodyStart(lines);
      (r.Err? <==> lines == [] || (start == 0 && !first) || start == |lines| || !ChunkLine(lines[start])) &&
      (r.Err? ==>
        r.error == if lines == [] then NoChunkLines(ln)
          else if start == 0 && !first then MissingContextMarker(ln, lines[0])
          else if start == |lines| || lines[start] == EOF_MARKER then NoChunkLines(ln + 1)
          else UnexpectedLine(ln + 1, lines[start]))
  {
    hide ScanChunk, ChunkOpening, Opens, Before, After;
    if lines != [] {
      var start := BodyStart(lines);
      OpeningReads(lines[0]);
      if start < |lines| {
        ScanIsScanned(lines[start..], Chunk(Named(lines[0]), [], [], false), 0, ln);
      }
    }
  }

  // --------------------------------------------------------------------- hunks

  /** The first `n` lines are the rest of an update hunk: chunks with blank lines between them, up to the end or a line
      of stars. */
  ghost predicate UpdateReads(lines: seq<string>, first: bool, chunks: seq<Chunk>, n: nat)
    decreases |lines|
  {
    if lines == [] then chunks == [] && n == 0
    else if Trim(lines[0]) == "" then n > 0 && UpdateReads(lines[1..], first, chunks, n - 1)
    else if "***" <= lines[0] then chunks == [] && n == 0
    else
      chunks != [] &&
      exists k :: 0 < k <= |lines| && k <= n && ChunkReads(lines, first, chunks[0], k) &&
        UpdateReads(lines[k..], false, chunks[1..], n - k)
  }

  lemma {:induction false} ScanExtends(lines: seq<string>, acc: seq<Chunk>, consumed: nat, ln: nat)
    ensures var r := ScanUpdate(lines, acc, consumed, ln); r.Ok? ==> acc <= r.value.0
    decreases |lines|
  {
    hide ParsedChunk, Trim;
    if lines == [] {
    } else if Trim(lines[0]) == "" {
      ScanExtends(lines[1..], acc, consumed + 1, ln);
    } else if !StartsWith(lines[0], "***") {
      var r := ParsedChunk(lines, ln + consumed, acc == []);
      if r.Ok? {
        ScanExtends(lines[r.value.1..], acc + [r.value.0], consumed + r.value.1, ln);
      }
    }
  }

  lemma {:induction false} UpdateExactly(lines: seq<string>, acc: seq<Chunk>, consumed: nat, ln: nat,
      chunks: seq<Chunk>, n: nat)
    ensures ScanUpdate(lines, acc, consumed, ln) == Ok((acc + chunks, consumed + n)) <==>
      UpdateReads(lines, acc == [], chunks, n)
    decreases |lines|
  {
    hide ParsedChunk, Trim, ChunkReads;
    assert acc + [] == acc;
    if lines == [] {
    } else if Trim(lines[0]) == "" {
      if n > 0 {
        UpdateExactly(lines[1..], acc, consumed + 1, ln, chunks, n - 1);
      } else {
        ScanConsumes(lines[1..], acc, consumed + 1, ln);
      }
    } else if !StartsWith(lines[0], "***") {
      UpdateChunkExactly(lines, acc, consumed, ln, chunks, n);
    }
  }

  lemma ScanConsumes(lines: seq<string>, acc: seq<Chunk>, consumed: nat, ln: nat)
    ensures var r := ScanUpdate(lines, acc, consumed, ln); r.Ok? ==> r.value.1 >= consumed
  {
    hide ScanUpdate;
  }

  lemma ScanChunkStep(lines: seq<string>, acc: seq<Chunk>, consumed: nat, ln: nat)
    requires lines != [] && Trim(lines[0]) != "" && !StartsWith(lines[0], "***")
    ensures var r := ParsedChunk(lines, ln + consumed, acc == []);
      ScanUpdate(lines, acc, consumed, ln) ==
      if r.Err? then Err(r.error)
      else ScanUpdate(lines[r.value.1..], acc + [r.value.0], consumed + r.value.1, ln)
  {
    hide ParsedChunk, Trim;
  }

  lemma ReadChunkStep(lines: seq<string>, first: bool, ln: nat, chunks: seq<Chunk>, n: nat)
    requires lines != [] && Trim(lines[0]) != "" && !StartsWith(lines[0], "***")
    ensures var r := ParsedChunk(lines, ln, first);
      UpdateReads(lines, first, chunks, n) <==>
        r.Ok? && chunks != [] && chunks[0] == r.value.0 && r.value.1 <= n &&
        UpdateReads(lines[r.value.1..], false, chunks[1..], n - r.value.1)
  {
    hide ParsedChunk, Trim, ChunkReads;
    if chunks != [] {
      forall k: nat ensures ChunkReads(lines, first, chunks[0], k) <==>
        ParsedChunk(lines, ln, first) == Ok((chunks[0], k)) {
        ChunkExactly(lines, ln, first, chunks[0], k);
      }
    }
  }

  lemma {:induction false} UpdateChunkExactly(lines: seq<string>, acc: seq<Chunk>, consumed: nat, ln: nat,
      chunks: seq<Chunk>, n: nat)
    requires lines != [] && Trim(lines[0]) != "" && !StartsWith(lines[0], "***")
    ensures ScanUpdate(lines, acc, consumed, ln) == Ok((acc + chunks, consumed + n)) <==>
      UpdateReads(lines, acc == [], chunks, n)
    decreases |lines|, 0
  {
    hide ParsedChunk, Trim, ScanUpdate, UpdateReads;
    var r := ParsedChunk(lines, ln + consumed, acc == []);
    ScanChunkStep(lines, acc, consumed, ln);
    ReadChunkStep(lines, acc == [], ln + consumed, chunks, n);
    if r.Ok? {
      var (c, k) := r.value;
      ScanExtends(lines[k..], acc + [c], consumed + k, ln);
      ScanConsumes(lines[k..], acc + [c], consumed + k, ln);
      if chunks != [] && chunks[0] == c && k <= n {
        assert acc + chunks == acc + [c] + chunks[1..];
        assert acc + [c] != [];
        UpdateExactly(lines[k..], acc + [c], consumed + k, ln, chunks[1..], n - k);
      } else if acc + [c] <= acc + chunks {
        assert (acc + chunks)[|acc|] == (acc + [c])[|acc|] == c;
      }
    }
  }

  /** The file text that the added lines of an add hunk spell. */
  function Spelled(lines: seq<string>): string {
    if lines == [] then "" else Unmarked(lines[0]) + "\n" + Spelled(lines[1..])
  }

  /** The first `n` lines are the hunk; white space around its header and its move line does not count. */
  ghost predicate HunkReads(lines: seq<string>, h: Hunk, n: nat) {
    lines != [] && 0 < n <= |lines| &&
    match h
    case AddFile(path, contents) =>
      Trim(lines[0]) == ADD_FILE_MARKER + path && contents == Spelled(lines[1..n]) &&
      (forall k :: 1 <= k < n ==> "+" <= lines[k]) && (n < |lines| ==> !("+" <= lines[n]))
    case DeleteFile(path) => Trim(lines[0]) == DELETE_FILE_MARKER + path && n == 1
    case UpdateFile(path, move, chunks) =>
      var start := if move.Some? then 2 else 1;
      Trim(lines[0]) == UPDATE_FILE_MARKER + path && chunks != [] && start <= n &&
      (if move.Some? then |lines| > 1 && Trim(lines[1]) == MOVE_TO_MARKER + move.value
        else |lines| > 1 ==> !(MOVE_TO_MARKER <= Trim(lines[1]))) &&
      UpdateReads(lines[start..], true, chunks, n - start)
  }

  lemma MarkedPath(line: string, marker: string, path: string)
    ensures line == marker + path <==> marker <= line && line[|marker|..] == path
  {
    if marker <= line {
      assert line == marker + line[|marker|..];
    }
  }

  lemma {:induction false} AddedSpells(lines: seq<string>)
    ensures var n := AddedCount(lines);
      AddedText(lines) == Spelled(lines[..n]) && (forall k :: 0 <= k < n ==> "+" <= lines[k]) &&
      (n < |lines| ==> !("+" <= lines[n]))
    decreases |lines|
  {
    if lines != [] && StartsWith(lines[0], "+") {
      AddedSpells(lines[1..]);
      var n := AddedCount(lines);
      assert lines[..n][1..] == lines[1..][..n - 1];
    }
  }

  lemma AddHunkExactly(lines: seq<string>, ln: nat, h: Hunk, n: nat)
    requires lines != [] && h.AddFile? && ADD_FILE_MARKER <= Trim(lines[0])
    ensures ParsedHunk(lines, ln) == Ok((h, n)) <==> HunkReads(lines, h, n)
  {
    hide Trim, AddedText, AddedCount, Spelled;
    MarkedPath(Trim(lines[0]), ADD_FILE_MARKER, h.path);
    AddedSpells(lines[1..]);
    var m := 1 + AddedCount(lines[1..]);
    assert lines[1..][..m - 1] == lines[1..m];
    assert forall k :: 1 <= k < |lines| ==> lines[k] == lines[1..][k - 1];
    if HunkReads(lines, h, n) && n != m {
      assert false;
    }
  }

  lemma UpdateHunkExactly(lines: seq<string>, ln: nat, h: Hunk, n: nat)
    requires lines != [] && h.UpdateFile? && UPDATE_FILE_MARKER <= Trim(lines[0])
    requires !(ADD_FILE_MARKER <= Trim(lines[0])) && !(DELETE_FILE_MARKER <= Trim(lines[0]))
    ensures ParsedHunk(lines, ln) == Ok((h, n)) <==> HunkReads(lines, h, n)
  {
    hide Trim, ScanUpdate, UpdateReads;
    MarkedPath(Trim(lines[0]), UPDATE_FILE_MARKER, h.path);
    var move := MoveTarget(lines[1..]);
    if |lines| > 1 {
      assert lines[1..][0] == lines[1];
      MarkedPath(Trim(lines[1]), MOVE_TO_MARKER, if h.movePath.Some? then h.movePath.value else "");
    }
    if h.movePath == move {
      var start := if move.Some? then 2 else 1;
      if start <= n {
        UpdateExactly(lines[start..], [], start, ln, h.chunks, n - start);
        assert [] + h.chunks == h.chunks;
      }
      ScanConsumes(lines[start..], [], start, ln);
    }
  }

  lemma HeadersApart(line: string)
    ensures !(ADD_FILE_MARKER <= line && DELETE_FILE_MARKER <= line)
    ensures !(ADD_FILE_MARKER <= line && UPDATE_FILE_MARKER <= line)
    ensures !(DELETE_FILE_MARKER <= line && UPDATE_FILE_MARKER <= line)
  {
    assert ADD_FILE_MARKER[4] == 'A' && DELETE_FILE_MARKER[4] == 'D' && UPDATE_FILE_MARKER[4] == 'U';
  }

  /** A hunk is read as the grammar says, and in no other way. */
  lemma HunkExactly(lines: seq<string>, ln: nat, h: Hunk, n: nat)
    ensures ParsedHunk(lines, ln) == Ok((h, n)) <==> HunkReads(lines, h, n)
  {
    hide Trim, AddedText, AddedCount, ScanUpdate, UpdateReads, Spelled;
    if lines != [] {
      var first := Trim(lines[0]);
      HeadersApart(first);
      MarkedPath(first, ADD_FILE_MARKER, h.path);
      MarkedPath(first, DELETE_FILE_MARKER, h.path);
      MarkedPath(first, UPDATE_FILE_MARKER, h.path);
      if h.AddFile? && ADD_FILE_MARKER <= first {
        AddHunkExactly(lines, ln, h, n);
      } else if h.UpdateFile? && UPDATE_FILE_MARKER <= first {
        UpdateHunkExactly(lines, ln, h, n);
      }
    }
  }

  // -------------------------------------------------------------- whole patches

  /** The lines are the hunks, one after the other. */
  ghost predicate BodyReads(body: seq<string>, hs: seq<Hunk>)
    decreases |body|
  {
    if body == [] then hs == [] else
    hs != [] && exists n :: 0 < n <= |body| && HunkReads(body, hs[0], n) && BodyReads(body[n..], hs[1..])
  }

  lemma {:induction false} BodyExactly(body: seq<string>, ln: nat, hs: seq<Hunk>)
    ensures var r := ParsedHunks(body, ln); (r.Ok? && Hunks(r.value) == hs) <==> BodyReads(body, hs)
    decreases |body|
  {
    hide ParsedHunk, HunkReads;
    if body == [] {
    } else {
      var r := ParsedHunk(body, ln);
      if hs != [] {
        forall n: nat ensures HunkReads(body, hs[0], n) <==> r == Ok((hs[0], n)) {
          HunkExactly(body, ln, hs[0], n);
        }
      }
      if r.Ok? {
        var (h, n) := r.value;
        var rest := ParsedHunks(body[n..], ln + n);
        if hs != [] {
          BodyExactly(body[n..], ln + n, hs[1..]);
        }
        if rest.Ok? {
          assert ([(h, n)] + rest.value)[1..] == rest.value;
          assert Hunks(ParsedHunks(body, ln).value) == [h] + Hunks(rest.value);
        }
      }
    }
  }

  /** The heredoc lines that may surround a patch. */
  predicate Heredoc(lines: seq<string>) {
    |lines| >= 4 && (lines[0] == "<<EOF" || lines[0] == "<<'EOF'" || lines[0] == "<<\"EOF\"") &&
    EndsWith(lines[|lines| - 1], "EOF")
  }

  /** The lines between which the patch lies: all of them, or those inside a heredoc. */
  function Shown(lines: seq<string>): (r: seq<string>)
    requires lines != []
    ensures r != []
  {
    if Heredoc(lines) then lines[1..|lines| - 1] else lines
  }

  predicate Framed(lines: seq<string>)
    requires lines != []
  {
    Trim(lines[0]) == BEGIN_PATCH_MARKER && Trim(lines[|lines| - 1]) == END_PATCH_MARKER
  }

  /** The boundaries are accepted exactly when the lines, without a heredoc around them, have both markers. */
  lemma BoundariesExactly(lines: seq<string>)
    requires lines != []
    ensures CheckPatchBoundariesLenient(lines) ==
      if Framed(Shown(lines)) then Ok(Shown(lines))
      else Err(if Trim(Shown(lines)[0]) != BEGIN_PATCH_MARKER then BadFirstLine else BadLastLine)
  {
    hide Trim;
    if Heredoc(lines) {
      TrimFixed(lines[0]);
      assert lines[0][0] == '<' && BEGIN_PATCH_MARKER[0] == '*';
    }
  }

  lemma FramedTwice(lines: seq<string>)
    requires lines != [] && Framed(lines)
    ensures |lines| >= 2
  {
    hide Trim;
    assert BEGIN_PATCH_MARKER[4] == 'B' && END_PATCH_MARKER[4] == 'E';
  }

  /** The hunks and the text that a patch text stands for. */
  ghost predicate TextReads(input: string, p: ParsedPatch) {
    Trim(input) != "" &&
    var lines := Shown(SplitLines(Trim(input)));
    Framed(lines) && |lines| >= 2 && BodyReads(lines[1..|lines| - 1], p.hunks) && p.patch == Join(lines, "\n")
  }

  /** The parser accepts exactly the texts of the grammar, and returns exactly what the grammar says. */
  lemma ParserExactly(input: string, p: ParsedPatch)
    ensures ParsedPatchText(input) == Ok(p) <==> TextReads(input, p)
  {
    hide Trim, SplitLines, ParsedHunks, BodyReads, Shown, Framed, CheckPatchBoundariesLenient, Hunks;
    var trimmed := Trim(input);
    if trimmed != "" {
      var lines := SplitLines(trimmed);
      BoundariesExactly(lines);
      if Framed(Shown(lines)) {
        FramedTwice(Shown(lines));
        BodyExactly(Shown(lines)[1..|Shown(lines)| - 1], 2, p.hunks);
      }
    }
  }

  // --------------------------------------------------------- where it is refused

  lemma {:induction false} BeforeChunk(lines: seq<string>, first: bool, c: Chunk, n: nat, m: nat)
    requires ChunkReads(lines, first, c, n) && n <= m <= |lines|
    ensures ChunkReads(lines[..m], first, c, n)
  {
    hide ChunkLine, Opens, Before, After;
    var start, end := BodyStart(lines), if c.isEndOfFile then n - 1 else n;
    assert lines[..m][start..end] == lines[start..end];
  }

  /** A chunk that is followed by what reads as chunks. */
  lemma {:induction false} ReadsAfter(lines: seq<string>, first: bool, c: Chunk, k: nat, chunks: seq<Chunk>, at: nat)
    requires 0 < k && k + at <= |lines| && ChunkReads(lines, first, c, k)
    requires Trim(lines[0]) != "" && !("***" <= lines[0])
    requires UpdateReads(lines[k..][..at], false, chunks, at)
    ensures UpdateReads(lines[..k + at], first, [c] + chunks, k + at)
  {
    hide ChunkReads, Trim;
    BeforeChunk(lines, first, c, k, k + at);
    assert lines[..k + at][k..] == lines[k..][..at] && ([c] + chunks)[1..] == chunks;
  }

  lemma ReadsAfterBlank(lines: seq<string>, first: bool, chunks: seq<Chunk>, at: nat)
    requires lines != [] && at < |lines| && Trim(lines[0]) == "" && UpdateReads(lines[1..][..at], first, chunks, at)
    ensures UpdateReads(lines[..at + 1], first, chunks, at + 1)
  {
    hide Trim, ChunkReads;
    assert lines[..at + 1][1..] == lines[1..][..at];
  }

  lemma RefusedAtLine(lines: seq<string>, acc: seq<Chunk>, consumed: nat, ln: nat)
    requires ScanUpdate(lines, acc, consumed, ln).Err?
    ensures lines != []
    ensures if Trim(lines[0]) == "" then
        ScanUpdate(lines, acc, consumed, ln) == ScanUpdate(lines[1..], acc, consumed + 1, ln)
      else !("***" <= lines[0])
  {
    hide Trim, ParsedChunk;
  }

  /** An update hunk fails where its chunks read well up to a line from which no chunk can be read; the error is that
      chunk's, and numbered from that line. */
  lemma {:induction false} UpdateRefused(lines: seq<string>, acc: seq<Chunk>, consumed: nat, ln: nat)
      returns (chunks: seq<Chunk>, at: nat)
    requires ScanUpdate(lines, acc, consumed, ln).Err?
    ensures at < |lines| && UpdateReads(lines[..at], acc == [], chunks, at)
    ensures ParsedChunk(lines[at..], ln + consumed + at, acc + chunks == []) ==
      Err(ScanUpdate(lines, acc, consumed, ln).error)
    decreases |lines|
  {
    hide ParsedChunk, Trim, ScanUpdate, ChunkReads, UpdateReads;
    RefusedAtLine(lines, acc, consumed, ln);
    if Trim(lines[0]) == "" {
      chunks, at := UpdateRefused(lines[1..], acc, consumed + 1, ln);
      ReadsAfterBlank(lines, acc == [], chunks, at);
      assert lines[1..][at..] == lines[at + 1..];
      at := at + 1;
      return;
    }
    ScanChunkStep(lines, acc, consumed, ln);
    var r := ParsedChunk(lines, ln + consumed, acc == []);
    if r.Err? {
      chunks, at := [], 0;
      assert lines[0..] == lines && acc + [] == acc && lines[..0] == [];
      NothingReads(acc == []);
    } else {
      var (c, k) := r.value;
      var more, further := UpdateRefused(lines[k..], acc + [c], consumed + k, ln);
      ChunkExactly(lines, ln + consumed, acc == [], c, k);
      assert acc + [c] != [];
      ReadsAfter(lines, acc == [], c, k, more, further);
      chunks, at := [c] + more, k + further;
      assert lines[k..][further..] == lines[at..] && acc + [c] + more == acc + chunks;
    }
  }

  lemma NothingReads(first: bool)
    ensures UpdateReads([], first, [], 0)
  {}

  /** A hunk is refused for its header, for having no chunks, or for a chunk. */
  lemma HunkRefused(lines: seq<string>, ln: nat) returns (chunks: seq<Chunk>, at: nat)
    requires ParsedHunk(lines, ln).Err?
    ensures var e := ParsedHunk(lines, ln).error;
      if lines == [] then e == EmptyHunk(ln)
      else
        var first := Trim(lines[0]);
        !(ADD_FILE_MARKER <= first) && !(DELETE_FILE_MARKER <= first) &&
        if !(UPDATE_FILE_MARKER <= first) then e == InvalidHeader(ln, lines[0])
        else
          var start := if |lines| > 1 && MOVE_TO_MARKER <= Trim(lines[1]) then 2 else 1;
          at <= |lines| - start &&
          if e == EmptyUpdate(ln, first[|UPDATE_FILE_MARKER|..]) then UpdateReads(lines[start..], true, [], at)
          else
            UpdateReads(lines[start..start + at], true, chunks, at) &&
            ParsedChunk(lines[start + at..], ln + start + at, chunks == []) == Err(e)
  {
    hide Trim, AddedText, AddedCount, ScanUpdate, UpdateReads, ParsedChunk;
    chunks, at := [], 0;
    if lines != [] && UPDATE_FILE_MARKER <= Trim(lines[0]) {
      HeadersApart(Trim(lines[0]));
      var start := if MoveTarget(lines[1..]).Some? then 2 else 1;
      var rest := lines[start..];
      var r := ScanUpdate(rest, [], start, ln);
      if r.Err? {
        chunks, at := UpdateRefused(rest, [], start, ln);
        NeverEmptyUpdate(rest[at..], ln + start + at, [] + chunks == []);
        assert rest[at..] == lines[start + at..] && rest[..at] == lines[start..start + at] && [] + chunks == chunks;
      } else {
        at := r.value.1 - start;
        assert [] + r.value.0 == r.value.0;
        UpdateExactly(rest, [], start, ln, r.value.0, at);
      }
    }
  }

  lemma NeverEmptyUpdate(lines: seq<string>, ln: nat, first: bool)
    ensures ParsedChunk(lines, ln, first).Err? ==> !ParsedChunk(lines, ln, first).error.EmptyUpdate?
  {
    hide ParsedChunk, ChunkLine, Opens;
    ChunkRefusedExactly(lines, ln, first);
  }

  /** Nothing behind the rest of an update hunk counts. */
  lemma {:induction false} UpdateBefore(lines: seq<string>, first: bool, chunks: seq<Chunk>, n: nat, m: nat)
    requires UpdateReads(lines, first, chunks, n) && n <= m <= |lines|
    ensures UpdateReads(lines[..m], first, chunks, n)
    decreases |lines|
  {
    hide ChunkReads, Trim;
    if lines == [] || m == 0 {
    } else if Trim(lines[0]) == "" {
      UpdateBefore(lines[1..], first, chunks, n - 1, m - 1);
      assert lines[..m][1..] == lines[1..][..m - 1];
    } else if "***" <= lines[0] {
    } else {
      var k :| 0 < k <= |lines| && k <= n && ChunkReads(lines, first, chunks[0], k) &&
        UpdateReads(lines[k..], false, chunks[1..], n - k);
      UpdateBefore(lines[k..], false, chunks[1..], n - k, m - k);
      BeforeChunk(lines, first, chunks[0], k, m);
      assert lines[..m][k..] == lines[k..][..m - k];
    }
  }

  lemma HunkBefore(lines: seq<string>, h: Hunk, n: nat, m: nat)
    requires HunkReads(lines, h, n) && n <= m <= |lines|
    ensures HunkReads(lines[..m], h, n)
  {
    hide Trim, UpdateReads, Spelled;
    assert lines[..m][1..n] == lines[1..n];
    if h.UpdateFile? {
      var start := if h.movePath.Some? then 2 else 1;
      UpdateBefore(lines[start..], true, h.chunks, n - start, m - start);
      assert lines[..m][start..] == lines[start..][..m - start];
    }
  }

  /** A patch body fails where its hunks read well up to a line from which no hunk can be read; the error is that
      hunk's, and numbered from that line. */
  lemma {:induction false} BodyRefused(body: seq<string>, ln: nat) returns (hs: seq<Hunk>, at: nat)
    requires ParsedHunks(body, ln).Err?
    ensures at < |body| && BodyReads(body[..at], hs)
    ensures ParsedHunk(body[at..], ln + at) == Err(ParsedHunks(body, ln).error)
    decreases |body|
  {
    hide ParsedHunk, HunkReads;
    var r := ParsedHunk(body, ln);
    if r.Err? {
      hs, at := [], 0;
      assert body[0..] == body;
    } else {
      var (h, n) := r.value;
      hs, at := BodyRefused(body[n..], ln + n);
      HunkExactly(body, ln, h, n);
      HunkBefore(body, h, n, n + at);
      assert body[..n + at][n..] == body[n..][..at] && body[n..][at..] == body[n + at..] && ([h] + hs)[1..] == hs;
      hs, at := [h] + hs, n + at;
    }
  }
}
