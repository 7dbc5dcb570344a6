// src/acp/event-mapper.ts: which locations a node names, and which nodes the search
// for locations reaches.
module ToolLocationReach {
  import opened JsText
  import opened ToolLocationsModel
  import opened ToolLocationSearch

  // ------------------------------------------------------------------ one record

  /** The first field with the key. */
  lemma {:induction false} LookupExactly(fields: seq<Field>, key: string)
    ensures var r := Lookup(fields, key);
      if r.Some? then
        exists k :: 0 <= k < |fields| && fields[k] == Field(key, r.value) &&
          forall j :: 0 <= j < k ==> fields[j].key != key
      else forall f :: f in fields ==> f.key != key
    decreases |fields|
  {
    if fields == [] {
    } else if fields[0].key == key {
      assert fields[0] == Field(key, Lookup(fields, key).value);
    } else {
      LookupExactly(fields[1..], key);
      var r := Lookup(fields, key);
      if r.Some? {
        var k :| 0 <= k < |fields| - 1 && fields[1..][k] == Field(key, r.value) &&
          forall j :: 0 <= j < k ==> fields[1..][j].key != key;
        assert fields[k + 1] == fields[1..][k];
        assert forall j :: 0 < j < k + 1 ==> fields[j] == fields[1..][j - 1];
      }
    }
  }

  /** A line is the whole part of a positive number. */
  lemma LineExactly(value: Value, n: Line)
    ensures NormalizeLine(Some(value)) == Some(n) <==>
      value.Number? && n as real <= value.number < (n + 1) as real
    ensures NormalizeLine(Some(value)) == None <==> !value.Number? || value.number < 1.0
    ensures NormalizeLine(None) == None
  {}

  /** The line of a record: that under the first of the keys that holds one. */
  lemma {:induction false} LineOfExactly(fields: seq<Field>, keys: seq<string>)
    ensures var r := LineOf(fields, keys);
      if r.Some? then
        exists k :: 0 <= k < |keys| && NormalizeLine(Lookup(fields, keys[k])) == r &&
          forall j :: 0 <= j < k ==> NormalizeLine(Lookup(fields, keys[j])) == None
      else forall key :: key in keys ==> NormalizeLine(Lookup(fields, key)) == None
    decreases |keys|
  {
    hide Lookup;
    if keys == [] {
    } else if NormalizeLine(Lookup(fields, keys[0])).Some? {
      assert NormalizeLine(Lookup(fields, keys[0])) == LineOf(fields, keys);
    } else {
      LineOfExactly(fields, keys[1..]);
      var r := LineOf(fields, keys);
      if r.Some? {
        var k :| 0 <= k < |keys| - 1 && NormalizeLine(Lookup(fields, keys[1..][k])) == r &&
          forall j :: 0 <= j < k ==> NormalizeLine(Lookup(fields, keys[1..][j])) == None;
        assert keys[k + 1] == keys[1..][k];
        assert forall j :: 0 < j < k + 1 ==> keys[j] == keys[1..][j - 1];
      }
    }
  }

  /** The record has the text under the key. */
  predicate HasText(fields: seq<Field>, key: string, text: string) {
    Lookup(fields, key) == Some(Text(text))
  }

  lemma {:induction false} PathAddsExactly(fields: seq<Field>, keys: seq<string>, line: Option<Line>, add: Add)
    ensures add in PathAdds(fields, keys, line) <==>
      add.line == line && exists key :: key in keys && HasText(fields, key, add.rawPath)
    decreases |keys|
  {
    hide Lookup;
    if keys == [] {
    } else {
      PathAddsExactly(fields, keys[1..], line, add);
      assert forall key :: key in keys <==> key == keys[0] || key in keys[1..];
      var raw := Lookup(fields, keys[0]);
      var first := if raw.Some? && raw.value.Text? then [Add(raw.value.text, line)] else [];
      assert add in first <==> add.line == line && HasText(fields, keys[0], add.rawPath);
    }
  }

  // ---------------------------------------------------------------------- markers

  predicate OneLine(s: string) {
    forall k :: 0 <= k < |s| ==> s[k] != '\n' && s[k] != '\r' && s[k] as int != 0x2028 && s[k] as int != 0x2029
  }

  lemma {:induction false} BreakFound(line: string, rest: string)
    requires OneLine(line) && (rest != "" ==> !OneLine([rest[0]]))
    ensures BreakAt(line + rest) == |line|
    decreases |line|
  {
    if line == "" {
      assert line + rest == rest;
      if rest != "" {
        assert [rest[0]][0] == rest[0];
      }
    } else {
      assert (line + rest)[1..] == line[1..] + rest;
      BreakFound(line[1..], rest);
    }
  }

  /** The lines of a text are what stands between its line breaks, of which there are four kinds. */
  lemma LinesExactly(line: string, mark: char, rest: string)
    requires OneLine(line)
    ensures Lines(line) == [line]
    ensures !OneLine([mark]) ==> Lines(line + [mark] + rest) == [line] + Lines(rest)
  {
    hide BreakAt;
    BreakFound(line, "");
    assert line + "" == line;
    if !OneLine([mark]) {
      var tail := [mark] + rest;
      assert line + tail == line + [mark] + rest;
      BreakFound(line, tail);
      assert (line + tail)[..|line|] == line && (line + tail)[|line| + 1..] == rest;
    }
  }

  /** A line names a file when a marker begins it and something follows. */
  predicate Marks(line: string, path: string) {
    path != "" &&
    (("FILE:" <= line && Trim(line[5..]) == path) || ("MEDIA:" <= line && Trim(line[6..]) == path))
  }

  lemma {:induction false} LineAddsExactly(lines: seq<string>, add: Add)
    ensures add in LineAdds(lines) <==> add.line == None && exists l :: l in lines && Marks(l, add.rawPath)
    decreases |lines|
  {
    if lines == [] {
    } else {
      LineAddsExactly(lines[1..], add);
      MarkedExactly(lines[0], add.rawPath);
      hide Marked, Marks;
      assert forall l :: l in lines <==> l == lines[0] || l in lines[1..];
    }
  }

  lemma MarkedExactly(line: string, path: string)
    ensures path != "" ==> (Marked(line) == path <==> Marks(line, path))
    ensures Marks(line, path) ==> path != ""
  {
    hide Trim;
    assert "FILE:"[0] == 'F' && "MEDIA:"[0] == 'M';
  }

  // ------------------------------------------------------------------- one node

  /** A text block of the record's content has the text. */
  ghost predicate HasBlock(fields: seq<Field>, text: string) {
    exists block :: block in Content(fields) && IsBlock(block, text)
  }

  predicate IsBlock(block: Value, text: string) {
    block.Record? && Lookup(block.fields, "type") == Some(Text("text")) &&
    Lookup(block.fields, "text") == Some(Text(text))
  }

  lemma {:induction false} BlocksAddsExactly(blocks: seq<Value>, add: Add)
    ensures add in BlocksAdds(blocks) <==>
      exists block, text :: block in blocks && IsBlock(block, text) && add in MarkerAdds(text)
    decreases |blocks|
  {
    hide Lookup, MarkerAdds;
    if blocks == [] {
    } else {
      BlocksAddsExactly(blocks[1..], add);
      assert forall b :: b in blocks <==> b == blocks[0] || b in blocks[1..];
      if add in BlockAdds(blocks[0]) {
        var text := Lookup(blocks[0].fields, "text").value.text;
        assert IsBlock(blocks[0], text);
      }
    }
  }

  /** What a node adds: a text the files its lines mark; a record every text under one of the path keys, with the
      record's line, and the files marked in the text blocks of its content; anything else nothing. */
  lemma NodeAddsExactly(node: Value, add: Add)
    ensures add in NodeAdds(node) <==>
      match node
      case Text(text) => add in MarkerAdds(text)
      case Record(fields) =>
        (add.line == LineOf(fields, LINE_KEYS) &&
          exists key :: key in PATH_KEYS && HasText(fields, key, add.rawPath)) ||
        exists block, text :: block in Content(fields) && IsBlock(block, text) && add in MarkerAdds(text)
      case _ => false
    ensures forall text :: add in MarkerAdds(text) <==>
      add.line == None && exists l :: l in Lines(text) && Marks(l, add.rawPath)
  {
    hide HasText, Lines, LineOf, PathAdds, BlocksAdds, IsBlock, Marks, LineAdds, Content, PATH_KEYS;
    if node.Record? {
      PathAddsExactly(node.fields, PATH_KEYS, LineOf(node.fields, LINE_KEYS), add);
      BlocksAddsExactly(Content(node.fields), add);
    }
    forall text ensures add in LineAdds(Lines(text)) <==>
      add.line == None && exists l :: l in Lines(text) && Marks(l, add.rawPath) {
      LineAddsExactly(Lines(text), add);
    }
  }

  // ------------------------------------------------------------- the nodes reached

  /** The value is an item of the list, or a field of the record other than its content. */
  predicate ChildOf(node: Value, child: Value) {
    (node.List? && child in node.items) ||
    (node.Record? && exists f :: f in node.fields && f.key != "content" && f.value == child)
  }

  lemma {:induction false} ChildrenExactly(node: Value, child: Value)
    ensures child in Children(node) <==> ChildOf(node, child)
  {
    if node.Record? {
      NestedExactly(node.fields, child);
    }
  }

  lemma {:induction false} NestedExactly(fields: seq<Field>, child: Value)
    ensures child in Nested(fields) <==> exists f :: f in fields && f.key != "content" && f.value == child
    decreases |fields|
  {
    if fields == [] {
    } else {
      NestedExactly(fields[1..], child);
      assert forall f :: f in fields <==> f == fields[0] || f in fields[1..];
    }
  }

  /** The value lies that many steps below the node. */
  ghost predicate Below(node: Value, value: Value, steps: nat)
    decreases steps
  {
    if steps == 0 then node == value
    else exists child :: ChildOf(node, child) && Below(child, value, steps - 1)
  }

  /** The value lies below a node of that depth, at most four steps down in all. */
  ghost predicate Within(node: Value, depth: nat, value: Value) {
    exists steps: nat :: depth + steps <= 4 && Below(node, value, steps)
  }

  ghost predicate Visited(node: Value, depth: nat, value: Value) {
    value in Preorder(node, depth)
  }

  /** The search visits exactly the values at most four steps down. */
  lemma {:induction false} PreorderExactly(node: Value, depth: nat, value: Value)
    ensures value in Preorder(node, depth) <==> Within(node, depth, value)
    decreases if depth > 4 then 0 else 5 - depth
  {
    hide Children, PreorderAll, Within, Below, ChildOf;
    if depth > 4 {
      TooDeep(node, depth, value);
    } else {
      var next := depth + 1;
      PreorderAllExactly(Children(node), next, value);
      forall child ensures Visited(child, next, value) <==> Within(child, next, value) {
        PreorderExactly(child, next, value);
      }
      forall child ensures child in Children(node) <==> ChildOf(node, child) {
        ChildrenExactly(node, child);
      }
      WithinExactly(node, depth, value);
    }
  }

  lemma TooDeep(node: Value, depth: nat, value: Value)
    requires depth > 4
    ensures !Within(node, depth, value)
  {}

  /** One step, and then the rest of them. */
  lemma WithinExactly(node: Value, depth: nat, value: Value)
    requires depth <= 4
    ensures Within(node, depth, value) <==>
      value == node || exists child :: ChildOf(node, child) && Within(child, depth + 1, value)
  {
    hide ChildOf;
    if steps: nat :| depth + steps <= 4 && Below(node, value, steps) {
      if steps > 0 {
        var child :| ChildOf(node, child) && Below(child, value, steps - 1);
        assert Within(child, depth + 1, value);
      }
    }
    if value == node {
      assert Below(node, value, 0);
    }
    if child :| ChildOf(node, child) && Within(child, depth + 1, value) {
      var steps: nat :| depth + 1 + steps <= 4 && Below(child, value, steps);
      assert Below(node, value, steps + 1);
    }
  }

  lemma {:induction false} PreorderAllExactly(nodes: seq<Value>, depth: nat, value: Value)
    ensures value in PreorderAll(nodes, depth) <==> exists node :: node in nodes && Visited(node, depth, value)
    decreases |nodes|
  {
    hide Preorder;
    if nodes == [] {
    } else {
      PreorderAllExactly(nodes[1..], depth, value);
      assert Visited(nodes[0], depth, value) <==> value in Preorder(nodes[0], depth);
      hide Visited;
      assert forall n :: n in nodes <==> n == nodes[0] || n in nodes[1..];
    }
  }

  ghost predicate HasParent(order: seq<Value>, i: nat)
    requires i < |order|
  {
    exists j :: 0 <= j < i && ChildOf(order[j], order[i])
  }

  /** Every value is one of the nodes, or visited after a value it is a child of. */
  ghost predicate Rooted(nodes: seq<Value>, order: seq<Value>) {
    forall i :: 0 <= i < |order| && order[i] !in nodes ==> HasParent(order, i)
  }

  lemma {:induction false} ParentsBefore(node: Value, depth: nat)
    ensures var order := Preorder(node, depth);
      (order != [] ==> order[0] == node) && forall i :: 0 < i < |order| ==> HasParent(order, i)
    decreases if depth > 4 then 0 else 5 - depth, 0
  {
    hide ChildOf, Children;
    if depth <= 4 {
      var order, below := Preorder(node, depth), PreorderAll(Children(node), depth + 1);
      AllParentsBefore(Children(node), depth + 1);
      forall i | 0 < i < |order| ensures HasParent(order, i) {
        assert order[i] == below[i - 1];
        if below[i - 1] in Children(node) {
          ChildrenExactly(node, below[i - 1]);
          assert ChildOf(order[0], order[i]);
        } else {
          var j :| 0 <= j < i - 1 && ChildOf(below[j], below[i - 1]);
          assert order[j + 1] == below[j];
        }
      }
    }
  }

  lemma {:induction false} AllParentsBefore(nodes: seq<Value>, depth: nat)
    ensures Rooted(nodes, PreorderAll(nodes, depth))
    decreases if depth > 4 then 0 else 5 - depth, 1, |nodes|
  {
    hide ChildOf, Preorder;
    if nodes == [] {
    } else {
      var first, rest, order := Preorder(nodes[0], depth), PreorderAll(nodes[1..], depth), PreorderAll(nodes, depth);
      ParentsBefore(nodes[0], depth);
      AllParentsBefore(nodes[1..], depth);
      assert order == first + rest;
      forall i | 0 <= i < |order| && order[i] !in nodes ensures HasParent(order, i) {
        if 0 < i < |first| {
          assert HasParent(first, i);
          var j :| 0 <= j < i && ChildOf(first[j], first[i]);
          assert order[j] == first[j];
        } else if |first| <= i {
          var k := i - |first|;
          assert order[i] == rest[k] && HasParent(rest, k);
          var j :| 0 <= j < k && ChildOf(rest[j], rest[k]);
          assert order[j + |first|] == rest[j];
        }
      }
    }
  }

  /** A node within the budget of the value's own search adds it. */
  ghost predicate Names(value: Value, add: Add) {
    exists node :: node in Reached(Preorder(value, 0), 0) && add in NodeAdds(node)
  }

  /** What the searched values name: the adds of exactly the nodes within the budget. */
  lemma {:induction false} ValueAddsExactly(values: seq<Value>, add: Add)
    ensures add in ValueAdds(values) <==> exists value :: value in values && Names(value, add)
    decreases |values|
  {
    hide NodeAdds, Reached, Preorder, AddsOf;
    if values == [] {
    } else {
      ValueAddsExactly(values[1..], add);
      AddsOfExactly(Reached(Preorder(values[0], 0), 0), add);
      assert Names(values[0], add) <==> add in AddsOf(Reached(Preorder(values[0], 0), 0));
      hide Names;
      assert forall v :: v in values <==> v == values[0] || v in values[1..];
    }
  }

  lemma {:induction false} AddsOfExactly(nodes: seq<Value>, add: Add)
    ensures add in AddsOf(nodes) <==> exists node :: node in nodes && add in NodeAdds(node)
    decreases |nodes|
  {
    hide NodeAdds;
    if nodes == [] {
    } else {
      AddsOfExactly(nodes[1..], add);
      assert forall n :: n in nodes <==> n == nodes[0] || n in nodes[1..];
    }
  }

  /** The budget cuts the search off after 100 nodes in all. */
  lemma ReachedExactly(nodes: seq<Value>, visited: nat)
    requires visited <= 100
    ensures var r := Reached(nodes, visited);
      r <= nodes && visited + |r| <= 100 && (r == nodes || visited + |r| == 100)
  {}
}
