// src/acp/event-mapper.ts: the bounded search of a tool's arguments or result for
// locations, and the map of locations that it fills.
module ToolLocationSearch {
  import opened JsText
  import opened ToolLocationsModel

  const MAX_DEPTH := 4

  const MAX_NODES := 100

  /** A JSON-like value; `Scalar` stands for booleans, null and numbers that are not finite. */
  datatype Value =
    | Text(text: string)
    | Number(number: real)
    | Scalar
    | List(items: seq<Value>)
    | Record(fields: seq<Field>)

  datatype Field = Field(key: string, value: Value)

  const PATH_KEYS: seq<string> := [
    "path", "filePath", "file_path", "targetPath", "target_path", "targetFile", "target_file", "sourcePath",
      "source_path",
    "destinationPath", "destination_path", "oldPath", "old_path", "newPath", "new_path", "outputPath", "output_path",
    "inputPath", "input_path"]

  const LINE_KEYS: seq<string> := ["line", "lineNumber", "line_number", "startLine", "start_line"]

  // ------------------------------------------------------------- what one node adds

  function Lookup(fields: seq<Field>, key: string): Option<Value> {
    if fields == [] then None
    else if fields[0].key == key then Some(fields[0].value)
    else Lookup(fields[1..], key)
  }

  function NormalizeLine(value: Option<Value>): Option<Line> {
    if value.Some? && value.value.Number? && value.value.number.Floor > 0 then Some(value.value.number.Floor) else None
  }

  function LineOf(fields: seq<Field>, keys: seq<string>): Option<Line> {
    if keys == [] then None
    else
      var line := NormalizeLine(Lookup(fields, keys[0]));
      if line.Some? then line else LineOf(fields, keys[1..])
  }

  function PathAdds(fields: seq<Field>, keys: seq<string>, line: Option<Line>): seq<Add> {
    if keys == [] then [] else
    var raw := Lookup(fields, keys[0]);
    (if raw.Some? && raw.value.Text? then [Add(raw.value.text, line)] else []) + PathAdds(fields, keys[1..], line)
  }

  predicate IsLineBreak(c: char) {
    c == '\n' || c == '\r' || c as int == 0x2028 || c as int == 0x2029
  }

  function BreakAt(s: string): (i: nat)
    ensures i <= |s|
  {
    if s == "" || IsLineBreak(s[0]) then 0 else 1 + BreakAt(s[1..])
  }

  function Lines(s: string): seq<string>
    decreases |s|
  {
    var i := BreakAt(s);
    if i == |s| then [s] else [s[..i]] + Lines(s[i + 1..])
  }

  /** The file that a `FILE:` or `MEDIA:` line names. */
  function Marked(line: string): string {
    if "FILE:" <= line then Trim(line[5..]) else if "MEDIA:" <= line then Trim(line[6..]) else ""
  }

  function LineAdds(lines: seq<string>): seq<Add> {
    if lines == [] then [] else
    (if Marked(lines[0]) == "" then [] else [Add(Marked(lines[0]), None)]) + LineAdds(lines[1..])
  }

  function MarkerAdds(text: string): seq<Add> {
    LineAdds(Lines(text))
  }

  function BlockAdds(block: Value): seq<Add> {
    if block.Record? && Lookup(block.fields, "type") == Some(Text("text")) then
      match Lookup(block.fields, "text")
      case Some(Text(text)) => MarkerAdds(text)
      case _ => []
    else []
  }

  function BlocksAdds(blocks: seq<Value>): seq<Add> {
    if blocks == [] then [] else BlockAdds(blocks[0]) + BlocksAdds(blocks[1..])
  }

  function Content(fields: seq<Field>): seq<Value> {
    match Lookup(fields, "content")
    case Some(List(items)) => items
    case _ => []
  }

  function NodeAdds(node: Value): seq<Add> {
    match node
    case Text(text) => MarkerAdds(text)
    case Record(fields) => PathAdds(fields, PATH_KEYS, LineOf(fields, LINE_KEYS)) + BlocksAdds(Content(fields))
    case _ => []
  }

  // ------------------------------------------------------------------- the search

  /** The values below a list of fields, without the `content` that was read already. */
  function Nested(fields: seq<Field>): seq<Value> {
    if fields == [] then [] else (if fields[0].key == "content" then [] else [fields[0].value]) + Nested(fields[1..])
  }

  function Children(node: Value): seq<Value> {
    match node
    case List(items) => items
    case Record(fields) => Nested(fields)
    case _ => []
  }

  /** Every node down to the greatest depth, parents first. */
  function Preorder(node: Value, depth: nat): seq<Value>
    decreases if depth > MAX_DEPTH then 0 else MAX_DEPTH + 1 - depth, 0
  {
    if depth > MAX_DEPTH then [] else [node] + PreorderAll(Children(node), depth + 1)
  }

  function PreorderAll(nodes: seq<Value>, depth: nat): seq<Value>
    decreases if depth > MAX_DEPTH then 0 else MAX_DEPTH + 1 - depth, |nodes| + 1
  {
    if nodes == [] then [] else Preorder(nodes[0], depth) + PreorderAll(nodes[1..], depth)
  }

  /** The nodes that the budget still reaches. */
  function Reached(nodes: seq<Value>, visited: nat): seq<Value>
    requires visited <= MAX_NODES
  {
    if |nodes| <= MAX_NODES - visited then nodes else nodes[..MAX_NODES - visited]
  }

  function AddsOf(nodes: seq<Value>): seq<Add> {
    if nodes == [] then [] else NodeAdds(nodes[0]) + AddsOf(nodes[1..])
  }

  lemma {:induction false} AddedAllConcat(entries: seq<Entry>, a: seq<Add>, b: seq<Add>, decode: Decoder)
    ensures AddedAll(entries, a + b, decode) == AddedAll(AddedAll(entries, a, decode), b, decode)
    decreases |a|
  {
    hide Added;
    if a == [] {
      assert a + b == b;
    } else {
      assert (a + b)[1..] == a[1..] + b;
      AddedAllConcat(Added(entries, a[0], decode), a[1..], b, decode);
    }
  }

  lemma {:induction false} AddsOfConcat(a: seq<Value>, b: seq<Value>)
    ensures AddsOf(a + b) == AddsOf(a) + AddsOf(b)
    decreases |a|
  {
    hide NodeAdds;
    if a == [] {
      assert a + b == b;
    } else {
      assert (a + b)[1..] == a[1..] + b;
      AddsOfConcat(a[1..], b);
    }
  }

  lemma ReachedConcat(a: seq<Value>, b: seq<Value>, visited: nat)
    requires visited <= MAX_NODES
    ensures var first := Reached(a, visited);
      visited + |first| <= MAX_NODES && Reached(a + b, visited) == first + Reached(b, visited + |first|)
  {}

  lemma {:induction false} PreorderAllConcat(a: seq<Value>, b: seq<Value>, depth: nat)
    ensures PreorderAll(a + b, depth) == PreorderAll(a, depth) + PreorderAll(b, depth)
    decreases |a|
  {
    hide Preorder;
    if a == [] {
      assert a + b == b;
    } else {
      assert (a + b)[1..] == a[1..] + b;
      PreorderAllConcat(a[1..], b, depth);
    }
  }

  lemma {:induction false} NestedConcat(a: seq<Field>, b: seq<Field>)
    ensures Nested(a + b) == Nested(a) + Nested(b)
    decreases |a|
  {
    if a == [] {
      assert a + b == b;
    } else {
      assert (a + b)[1..] == a[1..] + b;
      NestedConcat(a[1..], b);
    }
  }

  /** What the search of some nodes leaves behind: the adds of the nodes that the budget reaches, in order. */
  function Searched(entries: seq<Entry>, nodes: seq<Value>, visited: nat, decode: Decoder): seq<Entry>
    requires visited <= MAX_NODES
  {
    AddedAll(entries, AddsOf(Reached(nodes, visited)), decode)
  }

  lemma SearchedConcat(entries: seq<Entry>, a: seq<Value>, b: seq<Value>, visited: nat, decode: Decoder)
    requires visited <= MAX_NODES
    ensures var then' := visited + |Reached(a, visited)|;
      then' <= MAX_NODES && then' + |Reached(b, then')| == visited + |Reached(a + b, visited)| &&
      Searched(entries, a + b, visited, decode) == Searched(Searched(entries, a, visited, decode), b, then', decode)
  {
    hide AddedAll, AddsOf;
    ReachedConcat(a, b, visited);
    var first := Reached(a, visited);
    var second := Reached(b, visited + |first|);
    AddsOfConcat(first, second);
    AddedAllConcat(entries, AddsOf(first), AddsOf(second), decode);
  }

  /** A node comes before everything below it. */
  lemma SearchedNode(entries: seq<Entry>, value: Value, depth: nat, visited: nat, decode: Decoder)
    requires visited < MAX_NODES && depth <= MAX_DEPTH
    ensures var below := PreorderAll(Children(value), depth + 1);
      |Reached(Preorder(value, depth), visited)| == 1 + |Reached(below, visited + 1)| &&
      Searched(entries, Preorder(value, depth), visited, decode) ==
      Searched(AddedAll(entries, NodeAdds(value), decode), below, visited + 1, decode)
  {
    hide AddedAll, NodeAdds, PreorderAll, Searched;
    SearchedConcat(entries, [value], PreorderAll(Children(value), depth + 1), visited, decode);
    SearchedOne(entries, value, visited, decode);
  }

  lemma SearchedOne(entries: seq<Entry>, value: Value, visited: nat, decode: Decoder)
    requires visited < MAX_NODES
    ensures Searched(entries, [value], visited, decode) == AddedAll(entries, NodeAdds(value), decode)
  {
    hide AddedAll, NodeAdds;
    assert [value][1..] == [];
    assert AddsOf([value]) == NodeAdds(value);
  }

  lemma SearchedNothing(entries: seq<Entry>, nodes: seq<Value>, visited: nat, decode: Decoder)
    requires nodes == [] || visited == MAX_NODES
    requires visited <= MAX_NODES
    ensures Reached(nodes, visited) == [] && Searched(entries, nodes, visited, decode) == entries
  {}

  /** The search of one more value after some others. */
  lemma SearchedNext(entries: seq<Entry>, some: seq<Value>, next: Value, depth: nat, visited: nat, decode: Decoder)
    requires visited <= MAX_NODES
    ensures var then' := visited + |Reached(PreorderAll(some, depth), visited)|;
      then' <= MAX_NODES &&
      then' + |Reached(Preorder(next, depth), then')| ==
        visited + |Reached(PreorderAll(some + [next], depth), visited)| <= MAX_NODES &&
      Searched(entries, PreorderAll(some + [next], depth), visited, decode) ==
      Searched(Searched(entries, PreorderAll(some, depth), visited, decode), Preorder(next, depth), then', decode)
  {
    hide Preorder, Reached, Searched;
    PreorderAllConcat(some, [next], depth);
    assert [next][1..] == [] && Preorder(next, depth) + [] == Preorder(next, depth);
    SearchedConcat(entries, PreorderAll(some, depth), Preorder(next, depth), visited, decode);
    WithinBudget(PreorderAll(some + [next], depth), visited);
  }

  lemma WithinBudget(nodes: seq<Value>, visited: nat)
    requires visited <= MAX_NODES
    ensures visited + |Reached(nodes, visited)| <= MAX_NODES
  {}

  /** Once the budget is spent the values that are left add nothing. */
  lemma SearchedSpent(entries: seq<Entry>, some: seq<Value>, rest: seq<Value>, depth: nat, visited: nat,
      decode: Decoder)
    requires visited <= MAX_NODES && visited + |Reached(PreorderAll(some, depth), visited)| == MAX_NODES
    ensures Searched(entries, PreorderAll(some + rest, depth), visited, decode) ==
      Searched(entries, PreorderAll(some, depth), visited, decode)
    ensures visited + |Reached(PreorderAll(some + rest, depth), visited)| == MAX_NODES
  {
    hide Preorder, AddedAll, AddsOf, PreorderAll;
    PreorderAllConcat(some, rest, depth);
    ReachedConcat(PreorderAll(some, depth), PreorderAll(rest, depth), visited);
    var first := Reached(PreorderAll(some, depth), visited);
    assert first + Reached(PreorderAll(rest, depth), MAX_NODES) == first;
  }

  /** One step of the pass over the entries, at position `i`. */
  lemma VisitAt(entries: seq<Entry>, i: nat, path: string, line: Option<Line>)
    requires i < |entries|
    ensures var existing := entries[i].location;
      var without := entries[..i] + entries[i + 1..];
      Visit(entries[..i], entries[i..], path, line) ==
      if existing.path == path && (line.None? || existing.line == line) then entries
      else if existing.path == path && existing.line.None? then Visit(without[..i], without[i..], path, line)
      else Visit(entries[..i + 1], entries[i + 1..], path, line)
  {
    hide Key;
    assert entries[i..][1..] == entries[i + 1..] && entries[..i] + [entries[i]] == entries[..i + 1];
    assert entries[..i] + entries[i..] == entries;
    var without := entries[..i] + entries[i + 1..];
    assert without[..i] == entries[..i] && without[i..] == entries[i + 1..];
  }

  lemma VisitLast(entries: seq<Entry>, path: string, line: Option<Line>)
    ensures entries[..0] == [] && entries[0..] == entries
    ensures var added := Location(path, line);
      Visit(entries[..|entries|], entries[|entries|..], path, line) ==
      if exists k :: 0 <= k < |entries| && entries[k].key == Key(added) then entries
        else entries + [Entry(Key(added), added)]
  {
    hide Key;
    assert entries[..|entries|] == entries && entries[|entries|..] == [];
  }

  class ToolLocations {
    var entries: seq<Entry>
    const decode: Decoder

    constructor (decode: Decoder)
      ensures entries == [] && this.decode == decode
    {
      this.decode := decode;
      entries := [];
    }

    method AddToolLocation(rawPath: string, line: Option<Line>)
      modifies this
      ensures entries == Added(old(entries), Add(rawPath, line), decode)
    {
      hide Key, Visit, NormalizePath;
      var path := NormalizePath(rawPath, decode);
      if path.None? {
        return;
      }
      VisitLast(entries, path.value, line);
      var i := 0;
      while i < |entries|
        invariant i <= |entries|
        invariant Visit(entries[..i], entries[i..], path.value, line) == Added(old(entries), Add(rawPath, line), decode)
        decreases |entries| - i
      {
        var existing := entries[i].location;
        VisitAt(entries, i, path.value, line);
        if existing.path == path.value {
          if line.None? || existing.line == line {
            return;
          }
          if existing.line.None? {
            entries := entries[..i] + entries[i + 1..];
            continue;
          }
        }
        i := i + 1;
      }
      VisitLast(entries, path.value, line);
      var added := Location(path.value, line);
      if exists k :: 0 <= k < |entries| && entries[k].key == Key(added) {
        return;
      }
      entries := entries + [Entry(Key(added), added)];
    }

    method CollectLocationsFromTextMarkers(text: string)
      modifies this
      ensures entries == AddedAll(old(entries), MarkerAdds(text), decode)
    {
      hide Added, Lines;
      var lines := Lines(text);
      assert lines[0..] == lines;
      for k := 0 to |lines|
        invariant AddedAll(entries, LineAdds(lines[k..]), decode) == AddedAll(old(entries), LineAdds(lines), decode)
      {
        ghost var before := entries;
        assert lines[k..][0] == lines[k] && lines[k..][1..] == lines[k + 1..];
        var candidate := Marked(lines[k]);
        if candidate != "" {
          AddToolLocation(candidate, None);
          assert ([Add(candidate, None)] + LineAdds(lines[k + 1..]))[1..] == LineAdds(lines[k + 1..]);
        } else {
          assert [] + LineAdds(lines[k + 1..]) == LineAdds(lines[k + 1..]);
        }
      }
    }

    /** What a record says about itself: the paths under its known keys, and the markers in its text blocks. */
    method CollectOwnLocations(fields: seq<Field>)
      modifies this
      ensures entries == AddedAll(old(entries), NodeAdds(Record(fields)), decode)
    {
      hide Added, Lookup, BlockAdds, LineOf, PATH_KEYS;
      var line := LineOf(fields, LINE_KEYS);
      var keys := PATH_KEYS;
      assert keys[0..] == keys;
      for k := 0 to |keys|
        invariant AddedAll(entries, PathAdds(fields, keys[k..], line), decode) ==
          AddedAll(old(entries), PathAdds(fields, keys, line), decode)
      {
        assert keys[k..][0] == keys[k] && keys[k..][1..] == keys[k + 1..];
        var rawPath := Lookup(fields, keys[k]);
        if rawPath.Some? && rawPath.value.Text? {
          AddToolLocation(rawPath.value.text, line);
          assert ([Add(rawPath.value.text, line)] + PathAdds(fields, keys[k + 1..], line))[1..] ==
            PathAdds(fields, keys[k + 1..], line);
        } else {
          assert [] + PathAdds(fields, keys[k + 1..], line) == PathAdds(fields, keys[k + 1..], line);
        }
      }
      ghost var between := entries;
      var blocks := Content(fields);
      assert blocks[0..] == blocks;
      for k := 0 to |blocks|
        invariant AddedAll(entries, BlocksAdds(blocks[k..]), decode) == AddedAll(between, BlocksAdds(blocks), decode)
      {
        assert blocks[k..][0] == blocks[k] && blocks[k..][1..] == blocks[k + 1..];
        AddedAllConcat(entries, BlockAdds(blocks[k]), BlocksAdds(blocks[k + 1..]), decode);
        CollectFromBlock(blocks[k]);
      }
      AddedAllConcat(old(entries), PathAdds(fields, keys, line), BlocksAdds(blocks), decode);
    }

    method CollectFromBlock(block: Value)
      modifies this
      ensures entries == AddedAll(old(entries), BlockAdds(block), decode)
    {
      hide MarkerAdds;
      if block.Record? && Lookup(block.fields, "type") == Some(Text("text")) {
        match Lookup(block.fields, "text") {
          case Some(Text(text)) =>
            CollectLocationsFromTextMarkers(text);
          case _ =>
        }
      }
    }

    method CollectToolLocations(value: Value, before: nat, depth: nat) returns (visited: nat)
      requires before <= MAX_NODES
      modifies this
      ensures entries == Searched(old(entries), Preorder(value, depth), before, decode)
      ensures visited == before + |Reached(Preorder(value, depth), before)|
      decreases value, 1
    {
      hide Searched, NodeAdds, Preorder, PreorderAll, Reached, MarkerAdds, AddedAll, Nested;
      visited := before;
      if visited >= MAX_NODES || depth > MAX_DEPTH {
        PreorderTooDeep(value, depth);
        SearchedNothing(entries, Preorder(value, depth), before, decode);
        return;
      }
      SearchedNode(entries, value, depth, before, decode);
      visited := visited + 1;
      if value.Text? {
        MarkersAreNodeAdds(value);
        CollectLocationsFromTextMarkers(value.text);
      } else if value.List? {
        NothingToAdd(entries, value, decode);
        visited := CollectItems(value, visited, depth);
        return;
      } else if value.Record? {
        CollectOwnLocations(value.fields);
        visited := CollectNested(value, visited, depth);
        return;
      } else {
        NothingToAdd(entries, value, decode);
      }
      NoChildren(depth);
      SearchedNothing(entries, [], visited, decode);
    }

    method CollectItems(value: Value, before: nat, depth: nat) returns (visited: nat)
      requires value.List? && before <= MAX_NODES
      modifies this
      ensures entries == Searched(old(entries), PreorderAll(Children(value), depth + 1), before, decode)
      ensures visited == before + |Reached(PreorderAll(Children(value), depth + 1), before)|
      decreases value, 0
    {
      hide Searched, Preorder, PreorderAll, Reached;
      var items := value.items;
      visited := before;
      NoChildren(depth);
      SearchedNothing(entries, [], before, decode);
      assert items[..0] == [];
      for k := 0 to |items|
        invariant visited <= MAX_NODES
        invariant entries == Searched(old(entries), PreorderAll(items[..k], depth + 1), before, decode)
        invariant visited == before + |Reached(PreorderAll(items[..k], depth + 1), before)|
      {
        SearchedNext(old(entries), items[..k], items[k], depth + 1, before, decode);
        assert items[..k] + [items[k]] == items[..k + 1];
        visited := CollectToolLocations(items[k], visited, depth + 1);
        if visited >= MAX_NODES {
          SearchedSpent(old(entries), items[..k + 1], items[k + 1..], depth + 1, before, decode);
          assert items[..k + 1] + items[k + 1..] == items;
          return;
        }
      }
      assert items[..|items|] == items;
    }

    method CollectNested(value: Value, before: nat, depth: nat) returns (visited: nat)
      requires value.Record? && before <= MAX_NODES
      modifies this
      ensures entries == Searched(old(entries), PreorderAll(Children(value), depth + 1), before, decode)
      ensures visited == before + |Reached(PreorderAll(Children(value), depth + 1), before)|
      decreases value, 0
    {
      hide Searched, Preorder, PreorderAll, Reached, Nested;
      var fields := value.fields;
      visited := before;
      NestedEnds(fields);
      NoChildren(depth);
      SearchedNothing(entries, [], before, decode);
      for k := 0 to |fields|
        invariant visited <= MAX_NODES
        invariant entries == Searched(old(entries), PreorderAll(Nested(fields[..k]), depth + 1), before, decode)
        invariant visited == before + |Reached(PreorderAll(Nested(fields[..k]), depth + 1), before)|
      {
        NestedNext(fields, k);
        if fields[k].key == "content" {
          continue;
        }
        SearchedNext(old(entries), Nested(fields[..k]), fields[k].value, depth + 1, before, decode);
        visited := CollectToolLocations(fields[k].value, visited, depth + 1);
        if visited >= MAX_NODES {
          NestedConcat(fields[..k + 1], fields[k + 1..]);
          SearchedSpent(old(entries), Nested(fields[..k + 1]), Nested(fields[k + 1..]), depth + 1, before, decode);
          assert fields[..k + 1] + fields[k + 1..] == fields;
          return;
        }
      }
    }
  }

  // ------------------------------------------------------- extractToolCallLocations

  /** The adds of all searched values; each value has the whole budget. */
  function ValueAdds(values: seq<Value>): seq<Add> {
    if values == [] then [] else AddsOf(Reached(Preorder(values[0], 0), 0)) + ValueAdds(values[1..])
  }

  /** The locations found hold, once each, exactly what the reached nodes name; a path without a line is kept only when
      no reached node names it with one. */
  method ExtractToolCallLocations(values: seq<Value>, decode: Decoder) returns (found: Option<seq<Location>>)
    ensures found.None? <==> forall l :: !Expected(ValueAdds(values), l, decode)
    ensures found.Some? ==> forall l :: l in found.value <==> Expected(ValueAdds(values), l, decode)
    ensures found.Some? ==> forall i, j :: 0 <= i < j < |found.value| ==> found.value[i] != found.value[j]
  {
    hide AddsOf, Reached, Preorder, AddedAll, Expected, Inv;
    var locations := new ToolLocations(decode);
    assert values[0..] == values;
    assert AddedAll([], ValueAdds(values[0..]), decode) == AddedAll([], ValueAdds(values), decode);
    for k := 0 to |values|
      invariant locations.decode == decode
      invariant AddedAll(locations.entries, ValueAdds(values[k..]), decode) == AddedAll([], ValueAdds(values), decode)
    {
      assert values[k..][0] == values[k] && values[k..][1..] == values[k + 1..];
      AddedAllConcat(locations.entries, AddsOf(Reached(Preorder(values[k], 0), 0)), ValueAdds(values[k + 1..]), decode);
      var visited := locations.CollectToolLocations(values[k], 0, 0);
    }
    NothingLeft(locations.entries, decode);
    CollectedExactly(ValueAdds(values), decode);
    found := Values(locations.entries);
  }

  lemma NothingLeft(entries: seq<Entry>, decode: Decoder)
    ensures AddedAll(entries, ValueAdds([]), decode) == entries
  {}

  method Values(entries: seq<Entry>) returns (found: Option<seq<Location>>)
    requires Inv(entries)
    ensures found.None? <==> Locations(entries) == {}
    ensures found.Some? ==> forall l :: l in found.value <==> l in Locations(entries)
    ensures found.Some? ==> forall i, j :: 0 <= i < j < |found.value| ==> found.value[i] != found.value[j]
  {
    hide Key;
    if |entries| == 0 {
      return None;
    }
    assert entries[0].location in Locations(entries);
    found := Some(seq(|entries|, k requires 0 <= k < |entries| => entries[k].location));
    forall l ensures l in found.value <==> l in Locations(entries) {
      if l in Locations(entries) {
        var k :| 0 <= k < |entries| && entries[k].location == l;
        assert found.value[k] == l;
      }
    }
  }

  lemma NestedEnds(fields: seq<Field>)
    ensures fields[..0] == [] && fields[..|fields|] == fields && Nested([]) == []
  {}

  lemma NestedNext(fields: seq<Field>, k: nat)
    requires k < |fields|
    ensures Nested(fields[..k + 1]) == if fields[k].key == "content" then Nested(fields[..k])
      else Nested(fields[..k]) + [fields[k].value]
  {
    assert fields[..k + 1] == fields[..k] + [fields[k]];
    NestedConcat(fields[..k], [fields[k]]);
    assert [fields[k]][1..] == [];
    assert Nested([fields[k]]) == if fields[k].key == "content" then [] else [fields[k].value];
  }

  lemma PreorderTooDeep(value: Value, depth: nat)
    ensures depth > MAX_DEPTH ==> Preorder(value, depth) == []
  {}

  lemma NoChildren(depth: nat)
    ensures PreorderAll([], depth + 1) == []
  {}

  lemma MarkersAreNodeAdds(value: Value)
    requires value.Text?
    ensures NodeAdds(value) == MarkerAdds(value.text)
  {}

  lemma NothingToAdd(entries: seq<Entry>, value: Value, decode: Decoder)
    requires !value.Text? && !value.Record?
    ensures AddedAll(entries, NodeAdds(value), decode) == entries
  {}
}
