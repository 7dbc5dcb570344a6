// src/acp/event-mapper.ts: the tool locations that a session collects from tool
// arguments and results. Decoding the path of a `file:` URL is a parameter.
module ToolLocationsModel {
  import opened JsText

  type Line = n: nat | 0 < n witness 1

  type Decoder = string -> Option<string>

  datatype Location = Location(path: string, line: Option<Line>)

  datatype Entry = Entry(key: string, location: Location)

  datatype Add = Add(rawPath: string, line: Option<Line>)

  // -------------------------------------------------------------- paths and keys

  predicate StartsWithIgnoringCase(s: string, prefix: string) {
    |prefix| <= |s| && forall k :: 0 <= k < |prefix| ==> AsciiLower(s[k]) == prefix[k]
  }

  /** `normalizeToolLocationPath`; the empty path counts as none. */
  function NormalizePath(raw: string, decode: Decoder): (path: Option<string>)
    ensures path != Some("")
  {
    var trimmed := Trim(raw);
    if trimmed == "" || |trimmed| > 4096 || '\0' in trimmed || '\r' in trimmed || '\n' in trimmed then None
    else if StartsWithIgnoringCase(trimmed, "http://") || StartsWithIgnoringCase(trimmed, "https://") then None
    else if StartsWithIgnoringCase(trimmed, "file://") then
      var decoded := decode(trimmed);
      if decoded == Some("") then None else decoded
    else Some(trimmed)
  }

  /** The text begins with the scheme, in whatever case. */
  ghost predicate HasScheme(s: string, scheme: string) {
    |scheme| <= |s| &&
    forall k :: 0 <= k < |scheme| ==>
      s[k] == scheme[k] || ('A' <= s[k] <= 'Z' && s[k] as int + 32 == scheme[k] as int)
  }

  lemma SchemeExactly(s: string, scheme: string)
    requires forall k :: 0 <= k < |scheme| ==> !('A' <= scheme[k] <= 'Z')
    ensures StartsWithIgnoringCase(s, scheme) <==> HasScheme(s, scheme)
  {}

  /** A path is usable if it is not blank, has at most 4096 characters and no line break or null in it; web addresses
      are no paths, a file address is decoded, and anything else is taken as it is, trimmed. */
  lemma PathExactly(raw: string, decode: Decoder)
    ensures var t, r := Trim(raw), NormalizePath(raw, decode);
      var usable := 1 <= |t| <= 4096 && '\0' !in t && '\r' !in t && '\n' !in t;
      if !usable || HasScheme(t, "http://") || HasScheme(t, "https://") then r == None
      else if HasScheme(t, "file://") then r == if decode(t) == Some("") then None else decode(t)
      else r == Some(t)
  {
    hide Trim, StartsWithIgnoringCase;
    SchemeExactly(Trim(raw), "http://");
    SchemeExactly(Trim(raw), "https://");
    SchemeExactly(Trim(raw), "file://");
  }

  function Key(l: Location): string {
    l.path + ":" + if l.line.Some? then Decimal(l.line.value) else ""
  }

  /** No two locations share a key, whatever colons and digits their paths hold. */
  lemma KeyDetermines(a: Location, b: Location)
    ensures Key(a) == Key(b) <==> a == b
  {
    if Key(a) == Key(b) {
      KeyParts(a);
      KeyParts(b);
      var ta := if a.line.Some? then Decimal(a.line.value) else "";
      var tb := if b.line.Some? then Decimal(b.line.value) else "";
      LastColon(a.path, ta, b.path, tb);
      if a.line.Some? && b.line.Some? {
        DecimalInjective(a.line.value, b.line.value);
      }
    }
  }

  lemma KeyParts(l: Location)
    ensures l.line.Some? ==> Decimal(l.line.value) != "" && ':' !in Decimal(l.line.value)
  {
    if l.line.Some? {
      DecimalParts(l.line.value);
    }
  }

  lemma LastColon(p: string, t: string, q: string, u: string)
    requires ':' !in t && ':' !in u && p + ":" + t == q + ":" + u
    ensures p == q && t == u
  {
    var s := p + ":" + t;
    assert s[|p|] == ':' && s[|q|] == ':';
    assert forall k :: |p| < k < |s| ==> s[k] == t[k - |p| - 1];
    assert forall k :: |q| < k < |s| ==> s[k] == u[k - |q| - 1];
    assert p == s[..|p|] && q == s[..|q|];
    assert t == s[|p| + 1..] && u == s[|q| + 1..];
  }

  // --------------------------------------------------------------- adding a location

  /** The pass over the entries: `kept` is behind the iterator, `rest` ahead of it. */
  function Visit(kept: seq<Entry>, rest: seq<Entry>, path: string, line: Option<Line>): seq<Entry>
    decreases |rest|
  {
    if rest == [] then
      var added := Location(path, line);
      if exists k :: 0 <= k < |kept| && kept[k].key == Key(added) then kept else kept + [Entry(Key(added), added)]
    else
      var existing := rest[0].location;
      if existing.path != path then Visit(kept + [rest[0]], rest[1..], path, line)
      else if line.None? || existing.line == line then kept + rest
      else if existing.line.None? then Visit(kept, rest[1..], path, line)
      else Visit(kept + [rest[0]], rest[1..], path, line)
  }

  function Added(entries: seq<Entry>, add: Add, decode: Decoder): seq<Entry> {
    var path := NormalizePath(add.rawPath, decode);
    if path.None? then entries else Visit([], entries, path.value, add.line)
  }

  function AddedAll(entries: seq<Entry>, adds: seq<Add>, decode: Decoder): seq<Entry>
    decreases |adds|
  {
    if adds == [] then entries else AddedAll(Added(entries, adds[0], decode), adds[1..], decode)
  }

  ghost predicate Inv(entries: seq<Entry>) {
    (forall k :: 0 <= k < |entries| ==> entries[k].key == Key(entries[k].location)) &&
    (forall i, j :: 0 <= i < j < |entries| ==> entries[i].location != entries[j].location) &&
    (forall i, j :: 0 <= i < |entries| && 0 <= j < |entries| && entries[i].location.path == entries[j].location.path ==>
      (entries[i].location.line.None? ==> entries[j].location.line.None?))
  }

  function Locations(entries: seq<Entry>): set<Location> {
    set k | 0 <= k < |entries| :: entries[k].location
  }

  ghost function AddedTo(s: set<Location>, path: string, line: Option<Line>): set<Location> {
    if line.Some? then s - {Location(path, None)} + {Location(path, line)}
    else if exists l :: l in s && l.path == path then s
    else s + {Location(path, None)}
  }

  lemma {:induction false} VisitAdds(kept: seq<Entry>, rest: seq<Entry>, path: string, line: Option<Line>)
    requires Inv(kept + rest)
    requires forall k :: 0 <= k < |kept| && kept[k].location.path == path ==>
      line.Some? && kept[k].location.line.Some? && kept[k].location.line != line
    ensures var r := Visit(kept, rest, path, line);
      Inv(r) && Locations(r) == AddedTo(Locations(kept + rest), path, line)
    decreases |rest|
  {
    hide Key;
    if rest == [] {
      assert kept + rest == kept;
      VisitEnd(kept, path, line);
      return;
    }
    var e := rest[0];
    var all := kept + rest;
    assert all[|kept|] == e && e.location in Locations(all);
    if e.location.path != path || (line.Some? && e.location.line.Some? && e.location.line != line) {
      assert kept + [e] + rest[1..] == all;
      VisitAdds(kept + [e], rest[1..], path, line);
    } else if line.None? || e.location.line == line {
      StaysAdded(all, path, line, |kept|);
    } else {
      Dropped(kept, rest);
      VisitAdds(kept, rest[1..], path, line);
    }
  }

  lemma VisitEnd(kept: seq<Entry>, path: string, line: Option<Line>)
    requires Inv(kept)
    requires forall k :: 0 <= k < |kept| && kept[k].location.path == path ==>
      line.Some? && kept[k].location.line.Some? && kept[k].location.line != line
    ensures var r := Visit(kept, [], path, line);
      Inv(r) && Locations(r) == AddedTo(Locations(kept), path, line)
  {
    var added := Location(path, line);
    forall k | 0 <= k < |kept| ensures kept[k].key != Key(added) && kept[k].location != added {
      KeyDetermines(kept[k].location, added);
    }
    var r := kept + [Entry(Key(added), added)];
    assert Visit(kept, [], path, line) == r;
    hide Key;
    OneMore(kept, Entry(Key(added), added));
    assert Location(path, None) !in Locations(kept);
  }

  lemma OneMore(kept: seq<Entry>, e: Entry)
    ensures Locations(kept + [e]) == Locations(kept) + {e.location}
  {
    var r := kept + [e];
    assert r[|kept|] == e && forall k :: 0 <= k < |kept| ==> r[k] == kept[k];
  }

  lemma StaysAdded(all: seq<Entry>, path: string, line: Option<Line>, at: nat)
    requires Inv(all) && at < |all| && all[at].location.path == path && (line.None? || all[at].location.line == line)
    ensures Locations(all) == AddedTo(Locations(all), path, line)
  {
    assert all[at].location in Locations(all);
  }

  /** Taking out the line-less entry of a path. */
  lemma Dropped(kept: seq<Entry>, rest: seq<Entry>)
    requires Inv(kept + rest) && rest != []
    ensures Inv(kept + rest[1..])
    ensures Locations(kept + rest[1..]) == Locations(kept + rest) - {rest[0].location}
  {
    hide Key;
    var all, less := kept + rest, kept + rest[1..];
    assert all[|kept|] == rest[0];
    assert forall k :: 0 <= k < |less| ==> less[k] == all[if k < |kept| then k else k + 1];
    assert forall k :: 0 <= k < |all| && k != |kept| ==> all[k] == less[if k < |kept| then k else k - 1];
  }

  lemma AddedLaw(entries: seq<Entry>, add: Add, decode: Decoder)
    requires Inv(entries)
    ensures var path := NormalizePath(add.rawPath, decode);
      Inv(Added(entries, add, decode)) &&
      Locations(Added(entries, add, decode)) ==
        if path.None? then Locations(entries) else AddedTo(Locations(entries), path.value, add.line)
  {
    hide Key, NormalizePath;
    var path := NormalizePath(add.rawPath, decode);
    if path.Some? {
      assert [] + entries == entries;
      VisitAdds([], entries, path.value, add.line);
    }
  }

  // ----------------------------------------------------------- any sequence of adds

  ghost predicate WasAdded(adds: seq<Add>, path: string, line: Option<Line>, decode: Decoder) {
    exists add :: add in adds && NormalizePath(add.rawPath, decode) == Some(path) && add.line == line
  }

  ghost predicate WasAddedWithLine(adds: seq<Add>, path: string, decode: Decoder) {
    exists add :: add in adds && NormalizePath(add.rawPath, decode) == Some(path) && add.line.Some?
  }

  /** What a reader of the final list may expect: every line that was given, and the bare path only when no line was. */
  ghost predicate Expected(adds: seq<Add>, l: Location, decode: Decoder) {
    WasAdded(adds, l.path, l.line, decode) && (l.line.None? ==> !WasAddedWithLine(adds, l.path, decode))
  }

  lemma {:induction false} AddedAllSnoc(entries: seq<Entry>, adds: seq<Add>, add: Add, decode: Decoder)
    ensures AddedAll(entries, adds + [add], decode) == Added(AddedAll(entries, adds, decode), add, decode)
    decreases |adds|
  {
    hide Added;
    if adds == [] {
    } else {
      assert (adds + [add])[1..] == adds[1..] + [add];
      AddedAllSnoc(Added(entries, adds[0], decode), adds[1..], add, decode);
    }
  }

  /** After any sequence of adds the entries are exactly the expected locations, each once. */
  lemma {:induction false} CollectedExactly(adds: seq<Add>, decode: Decoder)
    ensures Inv(AddedAll([], adds, decode))
    ensures forall l :: l in Locations(AddedAll([], adds, decode)) <==> Expected(adds, l, decode)
    decreases |adds|
  {
    hide Added, Inv, Locations;
    if adds == [] {
      EmptyLocations();
    } else {
      var before, add := adds[..|adds| - 1], adds[|adds| - 1];
      assert adds == before + [add];
      CollectedExactly(before, decode);
      AddedAllSnoc([], before, add, decode);
      AddedLaw(AddedAll([], before, decode), add, decode);
      ExpectedStep(Locations(AddedAll([], before, decode)), before, add, decode);
    }
  }

  lemma EmptyLocations()
    ensures Inv([]) && Locations([]) == {}
  {}

  lemma ExpectedStep(s: set<Location>, before: seq<Add>, add: Add, decode: Decoder)
    requires forall l :: l in s <==> Expected(before, l, decode)
    ensures var path := NormalizePath(add.rawPath, decode);
      var s' := if path.None? then s else AddedTo(s, path.value, add.line);
      forall l :: l in s' <==> Expected(before + [add], l, decode)
  {
    hide NormalizePath;
    var path := NormalizePath(add.rawPath, decode);
    var adds := before + [add];
    forall p, line ensures WasAdded(adds, p, line, decode) <==>
      WasAdded(before, p, line, decode) || (path == Some(p) && add.line == line) {
      assert add in adds && forall a :: a in adds <==> a in before || a == add;
    }
    forall p ensures WasAddedWithLine(adds, p, decode) <==>
      WasAddedWithLine(before, p, decode) || (path == Some(p) && add.line.Some?) {
      assert add in adds && forall a :: a in adds <==> a in before || a == add;
    }
    if path.Some? {
      PathKnown(s, before, path.value, decode);
    }
  }

  /** A path has an entry exactly when it was ever added. */
  lemma PathKnown(s: set<Location>, adds: seq<Add>, path: string, decode: Decoder)
    requires forall l :: l in s <==> Expected(adds, l, decode)
    ensures (exists l :: l in s && l.path == path) <==>
      WasAddedWithLine(adds, path, decode) || WasAdded(adds, path, None, decode)
  {
    hide NormalizePath;
    if WasAddedWithLine(adds, path, decode) {
      var add :| add in adds && NormalizePath(add.rawPath, decode) == Some(path) && add.line.Some?;
      assert Expected(adds, Location(path, add.line), decode);
    } else if WasAdded(adds, path, None, decode) {
      assert Expected(adds, Location(path, None), decode);
    }
  }

  /** Neither the order of the adds nor their repeats matter. */
  lemma OrderDoesNotMatter(adds: seq<Add>, others: seq<Add>, decode: Decoder)
    requires forall add :: add in adds <==> add in others
    ensures Locations(AddedAll([], adds, decode)) == Locations(AddedAll([], others, decode))
  {
    hide AddedAll, Locations, NormalizePath;
    CollectedExactly(adds, decode);
    CollectedExactly(others, decode);
    forall l ensures Expected(adds, l, decode) <==> Expected(others, l, decode) {}
  }
}
