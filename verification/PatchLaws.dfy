// What every accepted or rejected patch text satisfies.
module PatchLaws {
  import opened JsText
  import opened PatchParser
  import opened PatchRoundTrip

  // ------------------------------------------- exactly when printing is faithful

  ghost predicate NoCr(lines: seq<string>) {
    forall l :: l in lines ==> StripCr(l) == l
  }

  ghost predicate ChunkNoCr(c: Chunk) {
    NoCr(c.oldLines) && NoCr(c.newLines) &&
      (c.changeContext.Some? ==> StripCr(c.changeContext.value) == c.changeContext.value)
  }

  ghost predicate HunkNoCr(h: Hunk) {
    match h
    case AddFile(_, contents) => NoCr(ToLines(contents))
    case DeleteFile(_) => true
    case UpdateFile(_, _, chunks) => forall c :: c in chunks ==> ChunkNoCr(c)
  }

  /** No content or context line ends in a carriage return. */
  ghost predicate HunksNoCr(hs: seq<Hunk>) {
    forall h :: h in hs ==> HunkNoCr(h)
  }

  lemma {:induction false} StripAllFixed(lines: seq<string>)
    ensures StripAll(lines) == lines <==> NoCr(lines)
    decreases |lines|
  {
    if lines == [] {
    } else {
      StripAllFixed(lines[1..]);
      assert lines == [lines[0]] + lines[1..];
      assert StripAll(lines)[0] == StripCr(lines[0]) && StripAll(lines)[1..] == StripAll(lines[1..]);
      assert NoCr(lines) <==> StripCr(lines[0]) == lines[0] && NoCr(lines[1..]);
    }
  }

  lemma {:induction false} StripChunksFixed(cs: seq<Chunk>)
    ensures StripChunks(cs) == cs <==> forall c :: c in cs ==> ChunkNoCr(c)
    decreases |cs|
  {
    if cs == [] {
    } else {
      StripChunksFixed(cs[1..]);
      StripAllFixed(cs[0].oldLines);
      StripAllFixed(cs[0].newLines);
      assert cs == [cs[0]] + cs[1..];
      assert StripChunks(cs)[0] == StripChunk(cs[0]) && StripChunks(cs)[1..] == StripChunks(cs[1..]);
      assert (forall c :: c in cs ==> ChunkNoCr(c)) <==> ChunkNoCr(cs[0]) && forall c :: c in cs[1..] ==> ChunkNoCr(c);
    }
  }

  lemma {:induction false} StripHunkFixed(h: Hunk)
    requires WfHunk(h)
    ensures StripHunk(h) == h <==> HunkNoCr(h)
  {
    match h
    case AddFile(_, contents) =>
      StripAllFixed(ToLines(contents));
      StripKeepsLines(ToLines(contents));
      ToLinesUnLines(StripAll(ToLines(contents)));
    case DeleteFile(_) =>
    case UpdateFile(_, _, chunks) => StripChunksFixed(chunks);
  }

  lemma {:induction false} StripHunksFixed(hs: seq<Hunk>)
    requires WfHunks(hs)
    ensures StripHunks(hs) == hs <==> HunksNoCr(hs)
    decreases |hs|
  {
    hide StripHunk, WfHunk, HunkNoCr;
    if hs == [] {
    } else {
      StripHunksFixed(hs[1..]);
      assert WfHunk(hs[0]);
      StripHunkFixed(hs[0]);
      assert hs == [hs[0]] + hs[1..];
      assert StripHunks(hs)[0] == StripHunk(hs[0]) && StripHunks(hs)[1..] == StripHunks(hs[1..]);
      assert HunksNoCr(hs) <==> HunkNoCr(hs[0]) && HunksNoCr(hs[1..]);
    }
  }

  /** Print then parse is the identity exactly on the hunks no line of which ends in a carriage return. */
  lemma {:induction false} RoundTripExact(hs: seq<Hunk>)
    requires WfHunks(hs)
    ensures var r := ParsedPatchText(PrintPatch(hs)); (r.Ok? && r.value.hunks == hs) <==> HunksNoCr(hs)
  {
    hide ParsedPatchText, PrintPatch;
    PrintedPatchParses(hs);
    StripHunksFixed(hs);
  }

  /** A removed line that ends in a carriage return comes back without it. */
  lemma CarriageReturnLost()
    ensures var hs := [UpdateFile("f", None, [Chunk(None, ["a\r"], [], false)])];
      var r := ParsedPatchText(PrintPatch(hs));
      WfHunks(hs) && r.Ok? && r.value.hunks == [UpdateFile("f", None, [Chunk(None, ["a"], [], false)])]
  {
    hide ParsedPatchText, PrintPatch;
    var chunk := Chunk(None, ["a\r"], [], false);
    var hs := [UpdateFile("f", None, [chunk])];
    assert "a\r"[..1] == "a" && ["a\r"][1..] == [];
    assert StripAll(["a\r"]) == ["a"];
    assert [chunk][1..] == [] && hs[1..] == [];
    assert StripChunks([chunk]) == [Chunk(None, ["a"], [], false)];
    assert WfChunk(chunk) && WfHunk(hs[0]);
    PrintedPatchParses(hs);
  }

  // --------------------------------------- every parse result is well formed

  lemma {:induction false} ScannedWf(lines: seq<string>, c: Chunk, parsed: nat, ln: nat)
    requires WfLines(lines) && WfLines(c.oldLines) && WfLines(c.newLines)
    requires parsed > 0 ==> |c.oldLines| + |c.newLines| > 0
    ensures var r := ScanChunk(lines, c, parsed, ln);
      r.Ok? ==> var (d, n) := r.value;
        WfLines(d.oldLines) && WfLines(d.newLines) && d.changeContext == c.changeContext &&
        (n > 0 ==> |d.oldLines| + |d.newLines| > 0)
    decreases |lines|
  {
    if lines == [] {
    } else {
      var line := lines[0];
      assert line in lines;
      if line == EOF_MARKER {
      } else if line == "" {
        ScannedWf(lines[1..], c.(oldLines := c.oldLines + [""], newLines := c.newLines + [""]), parsed + 1, ln);
      } else {
        assert forall x :: x in line[1..] ==> x in line;
        if line[0] == ' ' {
          ScannedWf(lines[1..], c.(oldLines := c.oldLines + [line[1..]], newLines := c.newLines + [line[1..]]),
            parsed + 1, ln);
        } else if line[0] == '+' {
          ScannedWf(lines[1..], c.(newLines := c.newLines + [line[1..]]), parsed + 1, ln);
        } else if line[0] == '-' {
          ScannedWf(lines[1..], c.(oldLines := c.oldLines + [line[1..]]), parsed + 1, ln);
        }
      }
    }
  }

  lemma {:induction false} ParsedChunkWf(lines: seq<string>, ln: nat, allowMissing: bool)
    requires WfLines(lines)
    ensures var r := ParsedChunk(lines, ln, allowMissing); r.Ok? ==> WfChunk(r.value.0)
  {
    hide ScanChunk;
    if lines != [] {
      var (context, start) := ChunkOpening(lines[0]);
      assert lines[0] in lines;
      assert context.Some? ==> forall x :: x in context.value ==> x in lines[0];
      if start < |lines| {
        ScannedWf(lines[start..], Chunk(context, [], [], false), 0, ln);
      }
    }
  }

  lemma {:induction false} ScannedUpdateWf(remaining: seq<string>, chunks: seq<Chunk>, consumed: nat, ln: nat)
    requires WfLines(remaining) && forall c :: c in chunks ==> WfChunk(c)
    ensures var r := ScanUpdate(remaining, chunks, consumed, ln);
      r.Ok? ==> forall c :: c in r.value.0 ==> WfChunk(c)
    decreases |remaining|
  {
    hide ParsedChunk, Trim, WfChunk;
    if remaining == [] {
    } else if Trim(remaining[0]) == "" {
      ScannedUpdateWf(remaining[1..], chunks, consumed + 1, ln);
    } else if !StartsWith(remaining[0], "***") {
      var r := ParsedChunk(remaining, ln + consumed, chunks == []);
      ParsedChunkWf(remaining, ln + consumed, chunks == []);
      if r.Ok? {
        ScannedUpdateWf(remaining[r.value.1..], chunks + [r.value.0], consumed + r.value.1, ln);
      }
    }
  }

  lemma TrimmedTail(line: string, marker: string)
    requires '\n' !in line && StartsWith(Trim(line), marker) && marker != "" && IsSpace(marker[|marker| - 1])
    ensures WfPath(Trim(line)[|marker|..])
  {
    hide Trim;
    var t := Trim(line);
    assert t[|marker| - 1] == marker[|marker| - 1];
    assert '\n' in t ==> '\n' in line by {
      if '\n' in t {
        TrimChars(line, '\n');
      }
    }
  }

  lemma MarkersEndInSpace()
    ensures IsSpace(ADD_FILE_MARKER[13]) && |ADD_FILE_MARKER| == 14
    ensures IsSpace(DELETE_FILE_MARKER[16]) && |DELETE_FILE_MARKER| == 17
    ensures IsSpace(UPDATE_FILE_MARKER[16]) && |UPDATE_FILE_MARKER| == 17
    ensures IsSpace(MOVE_TO_MARKER[12]) && |MOVE_TO_MARKER| == 13
  {}

  lemma NoLines()
    ensures UnLines(ToLines("")) == ""
  {}

  lemma {:induction false} AddedWf(lines: seq<string>)
    requires WfLines(lines)
    ensures UnLines(ToLines(AddedText(lines))) == AddedText(lines)
    decreases |lines|
  {
    hide ToLines, UnLines;
    NoLines();
    if lines != [] && StartsWith(lines[0], "+") {
      assert lines[0] in lines && forall x :: x in lines[0][1..] ==> x in lines[0];
      AddedWf(lines[1..]);
      FirstLineOff(lines[0][1..], AddedText(lines[1..]));
    }
  }

  lemma FirstLineOff(head: string, rest: string)
    requires '\n' !in head && UnLines(ToLines(rest)) == rest
    ensures UnLines(ToLines(head + "\n" + rest)) == head + "\n" + rest
  {
    hide ToLines;
    ToLinesCons(head, rest);
    assert ([head] + ToLines(rest))[1..] == ToLines(rest);
  }

  lemma {:induction false} ParsedHunkWf(lines: seq<string>, ln: nat)
    requires WfLines(lines)
    ensures var r := ParsedHunk(lines, ln); r.Ok? ==> WfHunk(r.value.0)
  {
    hide Trim, AddedText, AddedCount, ScanUpdate, ToLines, UnLines, WfPath, WfChunk;
    if lines != [] {
      assert lines[0] in lines;
      MarkersEndInSpace();
      var first := Trim(lines[0]);
      if StartsWith(first, ADD_FILE_MARKER) {
        TrimmedTail(lines[0], ADD_FILE_MARKER);
        AddedWf(lines[1..]);
      } else if StartsWith(first, DELETE_FILE_MARKER) {
        TrimmedTail(lines[0], DELETE_FILE_MARKER);
      } else if StartsWith(first, UPDATE_FILE_MARKER) {
        TrimmedTail(lines[0], UPDATE_FILE_MARKER);
        var move := MoveTarget(lines[1..]);
        if move.Some? {
          assert lines[1] in lines;
          TrimmedTail(lines[1], MOVE_TO_MARKER);
        }
        var start := if move.Some? then 2 else 1;
        ScannedUpdateWf(lines[start..], [], start, ln);
      }
    }
  }

  lemma {:induction false} ParsedHunksWf(body: seq<string>, ln: nat)
    requires WfLines(body)
    ensures var r := ParsedHunks(body, ln); r.Ok? ==> WfHunks(Hunks(r.value))
    decreases |body|
  {
    hide ParsedHunk, WfHunk;
    if body == [] {
    } else {
      var r := ParsedHunk(body, ln);
      ParsedHunkWf(body, ln);
      if r.Ok? {
        ParsedHunksWf(body[r.value.1..], ln + r.value.1);
      }
    }
  }

  /** Every accepted text, whatever its layout, yields hunks the printer can express. */
  lemma {:induction false} ParsedPatchIsWf(input: string)
    ensures var r := ParsedPatchText(input); r.Ok? ==> WfHunks(r.value.hunks)
  {
    hide Trim, SplitLines, ParsedHunks, StrictBoundaryError, WfHunks;
    var trimmed := Trim(input);
    if trimmed != "" {
      var lines := SplitLines(trimmed);
      var checked := CheckPatchBoundariesLenient(lines);
      if checked.Ok? {
        assert WfLines(checked.value);
        ParsedHunksWf(checked.value[1..|checked.value| - 1], 2);
      }
    }
  }

  /** Printing what was parsed and parsing again changes nothing but trailing carriage returns. */
  lemma {:induction false} ReparseIsStable(input: string)
    requires ParsedPatchText(input).Ok?
    ensures var hs := ParsedPatchText(input).value.hunks;
      var again := ParsedPatchText(PrintPatch(hs));
      again.Ok? && again.value.hunks == StripHunks(hs)
  {
    hide ParsedPatchText, PrintPatch, WfHunks;
    ParsedPatchIsWf(input);
    PrintedPatchParses(ParsedPatchText(input).value.hunks);
  }

  // ------------------------------------------------------------------ progress

  function TotalConsumed(parsed: seq<(Hunk, nat)>): nat {
    if parsed == [] then 0 else parsed[0].1 + TotalConsumed(parsed[1..])
  }

  /** An accepted body is used up completely, and each hunk by at least one line. */
  lemma {:induction false} BodyIsConsumed(body: seq<string>, ln: nat)
    ensures var r := ParsedHunks(body, ln);
      r.Ok? ==> TotalConsumed(r.value) == |body| && forall p :: p in r.value ==> 0 < p.1
    decreases |body|
  {
    hide ParsedHunk;
    if body == [] {
    } else {
      var r := ParsedHunk(body, ln);
      if r.Ok? {
        BodyIsConsumed(body[r.value.1..], ln + r.value.1);
      }
    }
  }

  // ------------------------------------------------------- reported line numbers

  /** The line number an error carries, if it carries one. */
  function ErrorLine(e: ParseError): Option<nat> {
    match e
    case EmptyInput => None
    case BadFirstLine => None
    case BadLastLine => None
    case EmptyHunk(line) => Some(line)
    case EmptyUpdate(line, _) => Some(line)
    case InvalidHeader(line, _) => Some(line)
    case MissingContextMarker(line, _) => Some(line)
    case NoChunkLines(line) => Some(line)
    case UnexpectedLine(line, _) => Some(line)
  }

  /** The first error of a chunk scan points just after the chunk's first line. */
  lemma {:induction false} ScanErrorLine(lines: seq<string>, c: Chunk, parsed: nat, ln: nat)
    ensures var r := ScanChunk(lines, c, parsed, ln);
      r.Err? ==>
        parsed == 0 && lines != [] && (r.error == NoChunkLines(ln + 1) || r.error == UnexpectedLine(ln + 1, lines[0]))
    decreases |lines|
  {
    if lines != [] && lines[0] != EOF_MARKER {
      var line := lines[0];
      if line == "" {
        ScanErrorLine(lines[1..], c.(oldLines := c.oldLines + [""], newLines := c.newLines + [""]), parsed + 1, ln);
      } else if line[0] == ' ' {
        ScanErrorLine(lines[1..], c.(oldLines := c.oldLines + [line[1..]], newLines := c.newLines + [line[1..]]),
          parsed + 1, ln);
      } else if line[0] == '+' {
        ScanErrorLine(lines[1..], c.(newLines := c.newLines + [line[1..]]), parsed + 1, ln);
      } else if line[0] == '-' {
        ScanErrorLine(lines[1..], c.(oldLines := c.oldLines + [line[1..]]), parsed + 1, ln);
      }
    }
  }

  /** The number reported for an unexpected line is the line's own exactly when the chunk opened with a context
      marker. */
  lemma {:induction false} UnexpectedLineNumber(lines: seq<string>, ln: nat, allowMissing: bool)
    requires var r := ParsedChunk(lines, ln, allowMissing); r.Err? && r.error.UnexpectedLine?
    ensures var e := ParsedChunk(lines, ln, allowMissing).error;
      var at := ChunkOpening(lines[0]).1;
      at < |lines| && e.text == lines[at] && (e.line == ln + at <==> at == 1)
  {
    hide ScanChunk;
    var (context, start) := ChunkOpening(lines[0]);
    ScanErrorLine(lines[start..], Chunk(context, [], [], false), 0, ln);
  }

  /** The second line of the hunk, on line 3 of its patch, is reported as line 4. */
  lemma WrongLineReported()
    ensures ParsedHunk([UPDATE_FILE_MARKER + "f", "bad"], 2) == Err(UnexpectedLine(4, "bad"))
  {
    hide Trim;
    var lines := [UPDATE_FILE_MARKER + "f", "bad"];
    assert lines[1..] == ["bad"];
    HeaderFixed(UPDATE_FILE_MARKER, "f");
    DistinctMarkers("f");
    TrimFixed("bad");
    assert MOVE_TO_MARKER[0] == '*' && EOF_MARKER[0] == '*' && "***"[0] == '*' && CHANGE_CONTEXT_MARKER[0] == '@';
    assert MoveTarget(["bad"]) == None;
    assert ["bad"][0..] == ["bad"];
    assert ParsedChunk(["bad"], 3, true) == Err(UnexpectedLine(4, "bad"));
  }

  lemma {:induction false} ChunkErrorLine(lines: seq<string>, ln: nat, allowMissing: bool)
    requires lines != []
    ensures var r := ParsedChunk(lines, ln, allowMissing);
      r.Err? ==> ErrorLine(r.error).Some? && ln <= ErrorLine(r.error).value <= ln + |lines|
  {
    hide ScanChunk;
    var (context, start) := ChunkOpening(lines[0]);
    if start < |lines| {
      ScanErrorLine(lines[start..], Chunk(context, [], [], false), 0, ln);
    }
  }

  lemma {:induction false} UpdateErrorLine(remaining: seq<string>, chunks: seq<Chunk>, consumed: nat, ln: nat)
    ensures var r := ScanUpdate(remaining, chunks, consumed, ln);
      r.Err? ==> ErrorLine(r.error).Some? && ln + consumed <= ErrorLine(r.error).value <= ln + consumed + |remaining|
    decreases |remaining|
  {
    hide ParsedChunk, Trim, ErrorLine;
    if remaining == [] {
    } else if Trim(remaining[0]) == "" {
      UpdateErrorLine(remaining[1..], chunks, consumed + 1, ln);
    } else if !StartsWith(remaining[0], "***") {
      var r := ParsedChunk(remaining, ln + consumed, chunks == []);
      ChunkErrorLine(remaining, ln + consumed, chunks == []);
      if r.Ok? {
        UpdateErrorLine(remaining[r.value.1..], chunks + [r.value.0], consumed + r.value.1, ln);
      }
    }
  }

  lemma {:induction false} HunkErrorLine(lines: seq<string>, ln: nat)
    ensures var r := ParsedHunk(lines, ln);
      r.Err? ==> ErrorLine(r.error).Some? && ln <= ErrorLine(r.error).value <= ln + |lines|
  {
    hide Trim, ScanUpdate;
    if lines != [] {
      var start := if MoveTarget(lines[1..]).Some? then 2 else 1;
      UpdateErrorLine(lines[start..], [], start, ln);
    }
  }

  /** A body error always points into the body, or at the closing marker just after it. */
  lemma {:induction false} BodyErrorLine(body: seq<string>, ln: nat)
    ensures var r := ParsedHunks(body, ln);
      r.Err? ==> ErrorLine(r.error).Some? && ln <= ErrorLine(r.error).value <= ln + |body|
    decreases |body|
  {
    hide ParsedHunk, ErrorLine;
    if body == [] {
    } else {
      var r := ParsedHunk(body, ln);
      HunkErrorLine(body, ln);
      if r.Ok? {
        BodyErrorLine(body[r.value.1..], ln + r.value.1);
      }
    }
  }
}
