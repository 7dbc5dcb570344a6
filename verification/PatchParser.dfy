// src/agents/apply-patch.ts: the line-oriented patch parser.
//
// Each parsing function has two forms.  The methods are the loops of the source;
// the functions beside them say, by recursion over the remaining lines, what the
// loops compute.
module PatchParser {
  import opened JsText

  const BEGIN_PATCH_MARKER := "*** Begin Patch"
  const END_PATCH_MARKER := "*** End Patch"
  const ADD_FILE_MARKER := "*** Add File: "
  const DELETE_FILE_MARKER := "*** Delete File: "
  const UPDATE_FILE_MARKER := "*** Update File: "
  const MOVE_TO_MARKER := "*** Move to: "
  const EOF_MARKER := "*** End of File"
  const CHANGE_CONTEXT_MARKER := "@@ "
  const EMPTY_CHANGE_CONTEXT_MARKER := "@@"

  datatype Chunk = Chunk(changeContext: Option<string>, oldLines: seq<string>, newLines: seq<string>, isEndOfFile: bool)

  datatype Hunk =
    | AddFile(path: string, contents: string)
    | DeleteFile(path: string)
    | UpdateFile(path: string, movePath: Option<string>, chunks: seq<Chunk>)

  datatype ParseError =
    | EmptyInput
    | BadFirstLine
    | BadLastLine
    | EmptyHunk(line: nat)
    | EmptyUpdate(line: nat, path: string)
    | InvalidHeader(line: nat, text: string)
    | MissingContextMarker(line: nat, text: string)
    | NoChunkLines(line: nat)
    | UnexpectedLine(line: nat, text: string)

  datatype ParsedPatch = ParsedPatch(hunks: seq<Hunk>, patch: string)

  // ---------------------------------------------------------------- one chunk

  /** Continues a chunk that already holds `parsed` lines over `lines`. */
  function ScanChunk(lines: seq<string>, chunk: Chunk, parsed: nat, lineNumber: nat):
      (r: Result<(Chunk, nat), ParseError>)
    ensures r.Ok? ==> parsed <= r.value.1 <= parsed + |lines|
    ensures r.Ok? && parsed == 0 && lines != [] ==> 0 < r.value.1
  {
    if lines == [] then Ok((chunk, parsed)) else
    var line := lines[0];
    if line == EOF_MARKER then
      if parsed == 0 then Err(NoChunkLines(lineNumber + 1))
      else Ok((chunk.(isEndOfFile := true), parsed + 1))
    else if line == "" then
      ScanChunk(lines[1..], chunk.(oldLines := chunk.oldLines + [""], newLines := chunk.newLines + [""]), parsed + 1,
        lineNumber)
    else if line[0] == ' ' then
      ScanChunk(lines[1..], chunk.(oldLines := chunk.oldLines + [line[1..]], newLines := chunk.newLines + [line[1..]]),
        parsed + 1, lineNumber)
    else if line[0] == '+' then
      ScanChunk(lines[1..], chunk.(newLines := chunk.newLines + [line[1..]]), parsed + 1, lineNumber)
    else if line[0] == '-' then
      ScanChunk(lines[1..], chunk.(oldLines := chunk.oldLines + [line[1..]]), parsed + 1, lineNumber)
    else if parsed == 0 then Err(UnexpectedLine(lineNumber + 1, line))
    else Ok((chunk, parsed))
  }

  /** The context a chunk opens with, and how many lines its opening takes. */
  function ChunkOpening(line: string): (Option<string>, nat) {
    if line == EMPTY_CHANGE_CONTEXT_MARKER then (None, 1)
    else if StartsWith(line, CHANGE_CONTEXT_MARKER) then (Some(line[|CHANGE_CONTEXT_MARKER|..]), 1)
    else (None, 0)
  }

  function ParsedChunk(lines: seq<string>, lineNumber: nat, allowMissingContext: bool):
      (r: Result<(Chunk, nat), ParseError>)
    ensures r.Ok? ==> 0 < r.value.1 <= |lines|
  {
    if lines == [] then Err(NoChunkLines(lineNumber)) else
    var (context, start) := ChunkOpening(lines[0]);
    if start == 0 && !allowMissingContext then Err(MissingContextMarker(lineNumber, lines[0]))
    else if start >= |lines| then Err(NoChunkLines(lineNumber + 1))
    else
      var (chunk, parsed) :- ScanChunk(lines[start..], Chunk(context, [], [], false), 0, lineNumber);
      Ok((chunk, parsed + start))
  }

  method ParseUpdateFileChunk(lines: seq<string>, lineNumber: nat, allowMissingContext: bool)
    returns (r: Result<(Chunk, nat), ParseError>)
    ensures r == ParsedChunk(lines, lineNumber, allowMissingContext)
  {
    if |lines| == 0 {
      return Err(NoChunkLines(lineNumber));
    }
    var changeContext: Option<string> := None;
    var startIndex := 0;
    if lines[0] == EMPTY_CHANGE_CONTEXT_MARKER {
      startIndex := 1;
    } else if StartsWith(lines[0], CHANGE_CONTEXT_MARKER) {
      changeContext := Some(lines[0][|CHANGE_CONTEXT_MARKER|..]);
      startIndex := 1;
    } else if !allowMissingContext {
      return Err(MissingContextMarker(lineNumber, lines[0]));
    }
    if startIndex >= |lines| {
      return Err(NoChunkLines(lineNumber + 1));
    }
    var chunk := Chunk(changeContext, [], [], false);
    ghost var whole := ScanChunk(lines[startIndex..], chunk, 0, lineNumber);
    var parsedLines := 0;
    for k := startIndex to |lines|
      invariant ScanChunk(lines[k..], chunk, parsedLines, lineNumber) == whole
    {
      var line := lines[k];
      assert lines[k..][1..] == lines[k + 1..];
      if line == EOF_MARKER {
        if parsedLines == 0 {
          return Err(NoChunkLines(lineNumber + 1));
        }
        return Ok((chunk.(isEndOfFile := true), parsedLines + 1 + startIndex));
      }
      if line == "" {
        chunk := chunk.(oldLines := chunk.oldLines + [""], newLines := chunk.newLines + [""]);
      } else if line[0] == ' ' {
        chunk := chunk.(oldLines := chunk.oldLines + [line[1..]], newLines := chunk.newLines + [line[1..]]);
      } else if line[0] == '+' {
        chunk := chunk.(newLines := chunk.newLines + [line[1..]]);
      } else if line[0] == '-' {
        chunk := chunk.(oldLines := chunk.oldLines + [line[1..]]);
      } else {
        if parsedLines == 0 {
          return Err(UnexpectedLine(lineNumber + 1, line));
        }
        return Ok((chunk, parsedLines + startIndex));
      }
      parsedLines := parsedLines + 1;
    }
    r := Ok((chunk, parsedLines + startIndex));
  }

  // ----------------------------------------------------------------- one hunk

  /** How many of the leading lines are additions. */
  function AddedCount(lines: seq<string>): (n: nat)
    ensures n <= |lines|
  {
    if lines == [] || !StartsWith(lines[0], "+") then 0 else 1 + AddedCount(lines[1..])
  }

  /** The file text made of the leading `+` lines. */
  function AddedText(lines: seq<string>): string {
    if lines == [] || !StartsWith(lines[0], "+") then "" else lines[0][1..] + "\n" + AddedText(lines[1..])
  }

  /** Continues an update hunk whose header starts at `lineNumber`. */
  function ScanUpdate(remaining: seq<string>, chunks: seq<Chunk>, consumed: nat, lineNumber: nat):
      (r: Result<(seq<Chunk>, nat), ParseError>)
    ensures r.Ok? ==> consumed <= r.value.1 <= consumed + |remaining|
    decreases |remaining|
  {
    if remaining == [] then Ok((chunks, consumed))
    else if Trim(remaining[0]) == "" then ScanUpdate(remaining[1..], chunks, consumed + 1, lineNumber)
    else if StartsWith(remaining[0], "***") then Ok((chunks, consumed))
    else
      var (chunk, n) :- ParsedChunk(remaining, lineNumber + consumed, chunks == []);
      ScanUpdate(remaining[n..], chunks + [chunk], consumed + n, lineNumber)
  }

  /** The move target named by the line after an update header, if any. */
  function MoveTarget(lines: seq<string>): (r: Option<string>)
    ensures r.Some? ==> lines != []
  {
    if lines != [] && StartsWith(Trim(lines[0]), MOVE_TO_MARKER) then Some(Trim(lines[0])[|MOVE_TO_MARKER|..]) else None
  }

  function ParsedHunk(lines: seq<string>, lineNumber: nat): (r: Result<(Hunk, nat), ParseError>)
    ensures r.Ok? ==> 0 < r.value.1 <= |lines|
  {
    hide Trim, ScanUpdate, AddedText, AddedCount;
    if lines == [] then Err(EmptyHunk(lineNumber)) else
    var first := Trim(lines[0]);
    if StartsWith(first, ADD_FILE_MARKER) then
      Ok((AddFile(first[|ADD_FILE_MARKER|..], AddedText(lines[1..])), 1 + AddedCount(lines[1..])))
    else if StartsWith(first, DELETE_FILE_MARKER) then
      Ok((DeleteFile(first[|DELETE_FILE_MARKER|..]), 1))
    else if StartsWith(first, UPDATE_FILE_MARKER) then
      var path := first[|UPDATE_FILE_MARKER|..];
      var move := MoveTarget(lines[1..]);
      var start := if move.Some? then 2 else 1;
      var (chunks, consumed) :- ScanUpdate(lines[start..], [], start, lineNumber);
      if chunks == [] then Err(EmptyUpdate(lineNumber, path)) else Ok((UpdateFile(path, move, chunks), consumed))
    else Err(InvalidHeader(lineNumber, lines[0]))
  }

  method ParseAddedLines(lines: seq<string>) returns (contents: string, consumed: nat)
    ensures contents == AddedText(lines) && consumed == AddedCount(lines)
  {
    contents, consumed := "", 0;
    while consumed < |lines| && StartsWith(lines[consumed], "+")
      invariant consumed <= |lines|
      invariant contents + AddedText(lines[consumed..]) == AddedText(lines)
      invariant consumed + AddedCount(lines[consumed..]) == AddedCount(lines)
    {
      assert lines[consumed..][1..] == lines[consumed + 1..];
      contents := contents + (lines[consumed][1..] + "\n");
      consumed := consumed + 1;
    }
  }

  method ParseChunks(lines: seq<string>, start: nat, lineNumber: nat) returns (r: Result<(seq<Chunk>, nat), ParseError>)
    ensures r == ScanUpdate(lines, [], start, lineNumber)
  {
    hide ParsedChunk, Trim;
    var remaining, consumed, chunks: seq<Chunk> := lines, start, [];
    ghost var whole := ScanUpdate(remaining, chunks, consumed, lineNumber);
    while |remaining| > 0
      invariant ScanUpdate(remaining, chunks, consumed, lineNumber) == whole
      decreases |remaining|
    {
      if Trim(remaining[0]) == "" {
        remaining := remaining[1..];
        consumed := consumed + 1;
        continue;
      }
      if StartsWith(remaining[0], "***") {
        break;
      }
      var parsed := ParseUpdateFileChunk(remaining, lineNumber + consumed, |chunks| == 0);
      if parsed.Err? {
        return Err(parsed.error);
      }
      chunks := chunks + [parsed.value.0];
      remaining := remaining[parsed.value.1..];
      consumed := consumed + parsed.value.1;
    }
    r := Ok((chunks, consumed));
  }

  method ParseOneHunk(lines: seq<string>, lineNumber: nat) returns (r: Result<(Hunk, nat), ParseError>)
    ensures r == ParsedHunk(lines, lineNumber)
  {
    hide Trim, ScanUpdate, AddedText, AddedCount;
    if |lines| == 0 {
      return Err(EmptyHunk(lineNumber));
    }
    var firstLine := Trim(lines[0]);
    if StartsWith(firstLine, ADD_FILE_MARKER) {
      var contents, added := ParseAddedLines(lines[1..]);
      return Ok((AddFile(firstLine[|ADD_FILE_MARKER|..], contents), 1 + added));
    }
    if StartsWith(firstLine, DELETE_FILE_MARKER) {
      return Ok((DeleteFile(firstLine[|DELETE_FILE_MARKER|..]), 1));
    }
    if StartsWith(firstLine, UPDATE_FILE_MARKER) {
      var targetPath := firstLine[|UPDATE_FILE_MARKER|..];
      var consumed := 1;
      var movePath: Option<string> := None;
      if |lines| > 1 && StartsWith(Trim(lines[1]), MOVE_TO_MARKER) {
        movePath := Some(Trim(lines[1])[|MOVE_TO_MARKER|..]);
        consumed := 2;
      }
      var chunks := ParseChunks(lines[consumed..], consumed, lineNumber);
      if chunks.Err? {
        return Err(chunks.error);
      }
      if |chunks.value.0| == 0 {
        return Err(EmptyUpdate(lineNumber, targetPath));
      }
      return Ok((UpdateFile(targetPath, movePath, chunks.value.0), chunks.value.1));
    }
    r := Err(InvalidHeader(lineNumber, lines[0]));
  }

  // -------------------------------------------------------------- whole patch

  /** The hunks of the body lines, each with the number of lines it consumed. */
  function ParsedHunks(body: seq<string>, lineNumber: nat): Result<seq<(Hunk, nat)>, ParseError>
    decreases |body|
  {
    if body == [] then Ok([]) else
    var (hunk, n) :- ParsedHunk(body, lineNumber);
    var rest :- ParsedHunks(body[n..], lineNumber + n);
    Ok([(hunk, n)] + rest)
  }

  function Hunks(parsed: seq<(Hunk, nat)>): seq<Hunk> {
    if parsed == [] then [] else [parsed[0].0] + Hunks(parsed[1..])
  }

  lemma {:induction false} HunksAppend(a: seq<(Hunk, nat)>, b: seq<(Hunk, nat)>)
    ensures Hunks(a + b) == Hunks(a) + Hunks(b)
    decreases |a|
  {
    if a == [] {
      assert a + b == b;
    } else {
      assert (a + b)[1..] == a[1..] + b;
      HunksAppend(a[1..], b);
    }
  }

  lemma NoHunks()
    ensures Hunks([]) == []
  {}

  lemma HunksSnoc(a: seq<(Hunk, nat)>, b: (Hunk, nat))
    ensures Hunks(a + [b]) == Hunks(a) + [b.0]
  {
    HunksAppend(a, [b]);
    assert [b][1..] == [];
  }

  function StrictBoundaryError(lines: seq<string>): (r: Option<ParseError>)
    requires lines != []
    ensures r == None ==> 2 <= |lines|
  {
    hide Trim;
    assert BEGIN_PATCH_MARKER[4] == 'B' && END_PATCH_MARKER[4] == 'E';
    var first := Trim(lines[0]);
    var last := Trim(lines[|lines| - 1]);
    if first == BEGIN_PATCH_MARKER && last == END_PATCH_MARKER then None
    else if first != BEGIN_PATCH_MARKER then Some(BadFirstLine)
    else Some(BadLastLine)
  }

  /** Accepts the lines as they are, or without a surrounding heredoc. */
  function CheckPatchBoundariesLenient(lines: seq<string>): (r: Result<seq<string>, ParseError>)
    requires lines != []
    ensures r.Ok? ==> 2 <= |r.value| && StrictBoundaryError(r.value) == None
    ensures r.Ok? ==> r.value == lines || (|lines| >= 4 && r.value == lines[1..|lines| - 1])
  {
    hide StrictBoundaryError;
    var strictError := StrictBoundaryError(lines);
    if strictError == None then Ok(lines)
    else if |lines| < 4 then Err(strictError.value)
    else
      var first, last := lines[0], lines[|lines| - 1];
      if (first == "<<EOF" || first == "<<'EOF'" || first == "<<\"EOF\"") && EndsWith(last, "EOF") then
        var inner := lines[1..|lines| - 1];
        var innerError := StrictBoundaryError(inner);
        if innerError == None then Ok(inner) else Err(innerError.value)
      else Err(strictError.value)
  }

  function StripCr(line: string): string {
    if line != "" && line[|line| - 1] == '\r' then line[..|line| - 1] else line
  }

  /** Splitting at every line feed, each taking one carriage return before it along. */
  function SplitLines(s: string): (r: seq<string>)
    ensures r != []
    ensures forall l :: l in r ==> '\n' !in l
    decreases |s|
  {
    var i := IndexOf(s, '\n');
    if i == |s| then
      assert s[..i] == s;
      [s]
    else
      assert forall c :: c in StripCr(s[..i]) ==> c in s[..i];
      [StripCr(s[..i])] + SplitLines(s[i + 1..])
  }

  function ParsedPatchText(input: string): Result<ParsedPatch, ParseError> {
    var trimmed := Trim(input);
    if trimmed == "" then Err(EmptyInput) else
    var validated :- CheckPatchBoundariesLenient(SplitLines(trimmed));
    var parsed :- ParsedHunks(validated[1..|validated| - 1], 2);
    Ok(ParsedPatch(Hunks(parsed), Join(validated, "\n")))
  }

  method ParseBody(body: seq<string>) returns (r: Result<seq<Hunk>, ParseError>)
    ensures var whole := ParsedHunks(body, 2);
      if whole.Ok? then r == Ok(Hunks(whole.value)) else r == Err(whole.error)
  {
    hide ParsedHunk, Hunks;
    var hunks: seq<Hunk>, remaining, lineNumber := [], body, 2;
    ghost var whole := ParsedHunks(body, 2);
    ghost var parsed: seq<(Hunk, nat)> := [];
    assert whole.Ok? ==> parsed + whole.value == whole.value;
    NoHunks();
    while |remaining| > 0
      invariant hunks == Hunks(parsed)
      invariant var rest := ParsedHunks(remaining, lineNumber);
        if rest.Ok? then whole == Ok(parsed + rest.value) else whole == rest
      decreases |remaining|
    {
      var one := ParseOneHunk(remaining, lineNumber);
      if one.Err? {
        return Err(one.error);
      }
      HunksSnoc(parsed, one.value);
      ghost var rest := ParsedHunks(remaining[one.value.1..], lineNumber + one.value.1);
      assert rest.Ok? ==> parsed + ([one.value] + rest.value) == parsed + [one.value] + rest.value;
      parsed := parsed + [one.value];
      hunks := hunks + [one.value.0];
      lineNumber := lineNumber + one.value.1;
      remaining := remaining[one.value.1..];
    }
    assert parsed + [] == parsed;
    r := Ok(hunks);
  }

  method ParsePatchText(input: string) returns (r: Result<ParsedPatch, ParseError>)
    ensures r == ParsedPatchText(input)
  {
    hide ParsedHunks, SplitLines, Trim;
    var trimmed := Trim(input);
    if trimmed == "" {
      return Err(EmptyInput);
    }
    var checked := CheckPatchBoundariesLenient(SplitLines(trimmed));
    if checked.Err? {
      return Err(checked.error);
    }
    var validated := checked.value;
    var body := ParseBody(validated[1..|validated| - 1]);
    if body.Err? {
      return Err(body.error);
    }
    r := Ok(ParsedPatch(body.value, Join(validated, "\n")));
  }
}
