// src/routing/account-id.ts, src/routing/session-key.ts and
// src/sessions/session-key-utils.ts: normalised ids and agent session keys.
module RoutingIds {
  import opened JsText

  const DEFAULT_ACCOUNT_ID := "default"
  const DEFAULT_AGENT_ID := "main"
  const MAX_ID_LENGTH := 64

  /** Lower case as far as ids can tell: ASCII letters and the two other characters whose lower case holds an ASCII
      letter. */
  function LowerChar(c: char): string {
    if 'A' <= c <= 'Z' then [(c as int + 32) as char]
    else if c as int == 0x212A then "k"
    else if c as int == 0x130 then ['i', 0x307 as char]
    else [c]
  }

  function ToLower(s: string): string {
    if s == "" then "" else LowerChar(s[0]) + ToLower(s[1..])
  }

  predicate Alnum(c: char) {
    'a' <= c <= 'z' || '0' <= c <= '9'
  }

  predicate IdChar(c: char) {
    Alnum(c) || c == '_' || c == '-'
  }

  /** `/^[a-z0-9][a-z0-9_-]{0,63}$/i` */
  predicate ValidId(s: string) {
    0 < |s| <= MAX_ID_LENGTH && Alnum(AsciiLower(s[0])) && forall i :: 0 <= i < |s| ==> IdChar(AsciiLower(s[i]))
  }

  predicate LetterOrDigit(c: char) {
    'a' <= c <= 'z' || 'A' <= c <= 'Z' || '0' <= c <= '9'
  }

  /** A valid id has 1 to 64 letters and digits of ASCII, underscores and dashes, a letter or digit first. */
  lemma ValidExactly(s: string)
    ensures ValidId(s) <==>
      1 <= |s| <= 64 && LetterOrDigit(s[0]) &&
      forall i :: 0 <= i < |s| ==> LetterOrDigit(s[i]) || s[i] == '_' || s[i] == '-'
  {}

  /** Lower-casing is character by character; capitals, the kelvin sign and the dotted capital i change. */
  lemma {:induction false} LowerExactly(before: string, c: char, after: string)
    ensures ToLower(before + [c] + after) == ToLower(before) + LowerChar(c) + ToLower(after)
    ensures var n := c as int;
      LowerChar(c) ==
        if 0x41 <= n <= 0x5A then [(n + 0x20) as char]
        else if n == 0x212A then ['k']
        else if n == 0x130 then ['i', '\U{0307}']
        else [c]
    decreases |before|
  {
    var s := before + [c] + after;
    if before == "" {
      assert s[0] == c && s[1..] == after;
    } else {
      assert s[0] == before[0] && s[1..] == before[1..] + [c] + after;
      LowerExactly(before[1..], c, after);
    }
  }

  /** Every run of characters outside ids becomes one dash. */
  function CollapseInvalid(s: string, inRun: bool): string {
    if s == "" then ""
    else if IdChar(s[0]) then [s[0]] + CollapseInvalid(s[1..], false)
    else (if inRun then "" else "-") + CollapseInvalid(s[1..], true)
  }

  function StripLeadingDashes(s: string): (r: string)
    ensures r != "" ==> r[0] != '-'
    ensures |r| <= |s| && r == s[|s| - |r|..] && forall i :: 0 <= i < |s| - |r| ==> s[i] == '-'
  {
    if s != "" && s[0] == '-' then StripLeadingDashes(s[1..]) else s
  }

  function StripTrailingDashes(s: string): (r: string)
    ensures r <= s && (r != "" ==> r[|r| - 1] != '-') && forall i :: |r| <= i < |s| ==> s[i] == '-'
  {
    if s != "" && s[|s| - 1] == '-' then StripTrailingDashes(s[..|s| - 1]) else s
  }

  function Canonicalize(s: string): string {
    if ValidId(s) then ToLower(s) else
    var r := StripTrailingDashes(StripLeadingDashes(CollapseInvalid(ToLower(s), false)));
    if |r| <= MAX_ID_LENGTH then r else r[..MAX_ID_LENGTH]
  }

  predicate BlockedObjectKey(s: string) {
    s == "__proto__" || s == "prototype" || s == "constructor"
  }

  function NormalizeAccountId(value: string): string {
    var trimmed := Trim(value);
    if trimmed == "" then DEFAULT_ACCOUNT_ID else
    var canonical := Canonicalize(trimmed);
    if canonical == "" || BlockedObjectKey(canonical) then DEFAULT_ACCOUNT_ID else canonical
  }

  function SanitizeAgentId(value: string): string {
    var trimmed := Trim(value);
    if trimmed == "" then DEFAULT_AGENT_ID else
    var canonical := Canonicalize(trimmed);
    if canonical == "" then DEFAULT_AGENT_ID else canonical
  }

  /** Every string both normalisers return. */
  predicate SafeId(s: string) {
    0 < |s| <= MAX_ID_LENGTH && s[0] != '-' && forall i :: 0 <= i < |s| ==> IdChar(s[i])
  }

  lemma {:induction false} ToLowerFixed(s: string)
    requires forall i :: 0 <= i < |s| ==> IdChar(s[i]) || s[i] == ':'
    ensures ToLower(s) == s
    decreases |s|
  {
    if s == "" {
    } else {
      ToLowerFixed(s[1..]);
      assert s == [s[0]] + s[1..];
    }
  }

  lemma {:induction false} ToLowerValid(s: string)
    requires forall i :: 0 <= i < |s| ==> IdChar(AsciiLower(s[i]))
    ensures |ToLower(s)| == |s| && forall i :: 0 <= i < |s| ==> ToLower(s)[i] == AsciiLower(s[i])
    decreases |s|
  {
    if s == "" {
    } else {
      ToLowerValid(s[1..]);
      assert LowerChar(s[0]) == [AsciiLower(s[0])];
    }
  }

  lemma {:induction false} CollapsedChars(s: string, inRun: bool)
    ensures forall i :: 0 <= i < |CollapseInvalid(s, inRun)| ==> IdChar(CollapseInvalid(s, inRun)[i])
    decreases |s|
  {
    if s == "" {
    } else {
      CollapsedChars(s[1..], !IdChar(s[0]));
    }
  }

  lemma {:induction false} CollapseFixed(s: string, inRun: bool)
    requires forall i :: 0 <= i < |s| ==> IdChar(s[i])
    ensures CollapseInvalid(s, inRun) == s
    decreases |s|
  {
    if s == "" {
    } else {
      CollapseFixed(s[1..], false);
      assert s == [s[0]] + s[1..];
    }
  }

  /** A run of characters outside ids becomes one dash, and what is around it is kept. */
  lemma {:induction false} CollapseRun(valid: string, run: string, rest: string)
    requires (forall i :: 0 <= i < |valid| ==> IdChar(valid[i])) && run != ""
    requires (forall i :: 0 <= i < |run| ==> !IdChar(run[i])) && (rest != "" ==> IdChar(rest[0]))
    ensures CollapseInvalid(valid + run + rest, false) == valid + "-" + CollapseInvalid(rest, false)
    decreases |valid|
  {
    var s := valid + run + rest;
    if valid == "" {
      assert s[0] == run[0] && s[1..] == run[1..] + rest;
      CollapseRest(run[1..], rest);
    } else {
      assert s[0] == valid[0] && s[1..] == valid[1..] + run + rest;
      CollapseRun(valid[1..], run, rest);
    }
  }

  lemma {:induction false} CollapseRest(run: string, rest: string)
    requires (forall i :: 0 <= i < |run| ==> !IdChar(run[i])) && (rest != "" ==> IdChar(rest[0]))
    ensures CollapseInvalid(run + rest, true) == CollapseInvalid(rest, false)
    decreases |run|
  {
    if run == "" {
      assert run + rest == rest;
    } else {
      assert (run + rest)[1..] == run[1..] + rest;
      CollapseRest(run[1..], rest);
    }
  }

  /** What is left of a text without the dashes at its ends. */
  ghost predicate Undashed(s: string, before: nat, end: nat) {
    before <= end <= |s| && (forall i :: 0 <= i < before || end <= i < |s| ==> s[i] == '-') &&
    (before < end ==> s[before] != '-' && s[end - 1] != '-')
  }

  lemma DashesBehind(s: string, before: nat, n: nat)
    requires before + n <= |s| && forall i :: n <= i < |s| - before ==> s[before..][i] == '-'
    ensures forall i :: before + n <= i < |s| ==> s[i] == '-'
  {
    forall i | before + n <= i < |s| ensures s[i] == '-' {
      assert s[before..][i - before] == s[i];
    }
  }

  lemma StripsExactly(s: string) returns (before: nat, end: nat)
    ensures Undashed(s, before, end) && StripTrailingDashes(StripLeadingDashes(s)) == s[before..end]
  {
    hide StripLeadingDashes, StripTrailingDashes;
    var n := |StripTrailingDashes(StripLeadingDashes(s))|;
    before := |s| - |StripLeadingDashes(s)|;
    end := before + n;
    DashesBehind(s, before, n);
    assert s[before..][..n] == s[before..end];
  }

  /** A valid id is only lower-cased; any other text is collapsed, loses the dashes at its ends, and is cut to the
      length limit, in this order. */
  lemma CanonicalExactly(s: string) returns (before: nat, end: nat)
    ensures var collapsed := CollapseInvalid(ToLower(s), false);
      if ValidId(s) then Canonicalize(s) == ToLower(s)
      else Undashed(collapsed, before, end) && Canonicalize(s) == collapsed[before..Min(end, before + MAX_ID_LENGTH)]
  {
    hide CollapseInvalid, ToLower, ValidId, StripLeadingDashes, StripTrailingDashes;
    before, end := StripsExactly(CollapseInvalid(ToLower(s), false));
  }

  /** Blank ids and those without a canonical form stand for the default, and so do account ids that name object
      internals. */
  lemma NormalizedExactly(value: string)
    ensures var canonical := Canonicalize(Trim(value));
      NormalizeAccountId(value) == (
        if Trim(value) == "" || canonical in {"", "__proto__", "prototype", "constructor"} then "default"
        else canonical) &&
      SanitizeAgentId(value) == if Trim(value) == "" || canonical == "" then "main" else canonical
  {
    hide Canonicalize, Trim;
  }

  lemma CanonicalSafe(s: string)
    ensures Canonicalize(s) == "" || SafeId(Canonicalize(s))
  {
    hide CollapseInvalid, ToLower, StripLeadingDashes, StripTrailingDashes;
    if ValidId(s) {
      ToLowerValid(s);
    } else {
      CollapsedChars(ToLower(s), false);
      StrippedSafe(CollapseInvalid(ToLower(s), false));
    }
  }

  lemma StrippedSafe(s: string)
    requires forall i :: 0 <= i < |s| ==> IdChar(s[i])
    ensures var r := StripTrailingDashes(StripLeadingDashes(s));
      var cut := if |r| <= MAX_ID_LENGTH then r else r[..MAX_ID_LENGTH];
      cut == "" || SafeId(cut)
  {
    var l := StripLeadingDashes(s);
    var r := StripTrailingDashes(l);
    CutSafe(s, |s| - |l|, r);
  }

  /** A cut-out of a string of id characters that does not start with a dash is a safe id, or nothing. */
  lemma CutSafe(s: string, from: nat, r: string)
    requires forall i :: 0 <= i < |s| ==> IdChar(s[i])
    requires from <= |s| && r <= s[from..] && (r != "" ==> r[0] != '-')
    ensures var cut := if |r| <= MAX_ID_LENGTH then r else r[..MAX_ID_LENGTH]; cut == "" || SafeId(cut)
  {
    hide IdChar;
    assert forall i :: 0 <= i < |r| ==> r[i] == s[from + i];
  }

  lemma AccountSafe(value: string)
    ensures SafeId(NormalizeAccountId(value))
  {
    hide Canonicalize, Trim;
    CanonicalSafe(Trim(value));
    assert SafeId(DEFAULT_ACCOUNT_ID);
  }

  lemma AgentSafe(value: string)
    ensures SafeId(SanitizeAgentId(value))
  {
    hide Canonicalize, Trim;
    CanonicalSafe(Trim(value));
    assert SafeId(DEFAULT_AGENT_ID);
  }

  lemma SafeTrimmed(s: string)
    requires forall i :: 0 <= i < |s| ==> IdChar(s[i]) || s[i] == ':'
    ensures Trim(s) == s
  {
    TrimFixed(s);
  }

  /** Canonicalising a safe id again only ever takes trailing dashes off, and only from an id that starts with an
      underscore. */
  lemma CanonicalAgain(s: string)
    requires SafeId(s)
    ensures Canonicalize(s) == if s[0] == '_' then StripTrailingDashes(s) else s
  {
    ToLowerFixed(s);
    if s[0] == '_' {
      assert !ValidId(s);
      CollapseFixed(s, false);
    } else {
      assert ValidId(s);
    }
  }

  /** Normalising an account id twice changes it exactly when the first result starts with an underscore and ends in a
      dash, which happens when the length limit cuts just after a dash. */
  lemma NormalizeTwice(value: string)
    ensures var id := NormalizeAccountId(value);
      NormalizeAccountId(id) == id <==> !(id[0] == '_' && id[|id| - 1] == '-')
  {
    AccountSafe(value);
    var id := NormalizeAccountId(value);
    NotBlocked(value);
    hide Canonicalize, Trim, BlockedObjectKey;
    SafeTrimmed(id);
    CanonicalAgain(id);
    assert DEFAULT_ACCOUNT_ID[0] == 'd';
    assert StripTrailingDashes(id) == id <==> id[|id| - 1] != '-';
  }

  lemma NotBlocked(value: string)
    ensures !BlockedObjectKey(NormalizeAccountId(value))
  {
    hide Canonicalize, Trim;
    assert DEFAULT_ACCOUNT_ID != "prototype" && DEFAULT_ACCOUNT_ID[0] == 'd' && "constructor"[0] == 'c' &&
      "__proto__"[0] == '_' && "prototype"[0] == 'p';
  }

  /** There is such an account id: an underscore, 62 letters, and a dash the length limit leaves at the end. */
  lemma UnstableAccountExists()
    ensures var value := "_" + seq(62, _ => 'a') + "-b";
      NormalizeAccountId(NormalizeAccountId(value)) != NormalizeAccountId(value)
  {
    var value := "_" + seq(62, _ => 'a') + "-b";
    assert |value| == 65 && value[0] == '_' && value[63] == '-' && value[64] == 'b';
    assert forall i :: 0 <= i < |value| ==> IdChar(value[i]);
    UnstableAccount(value);
  }

  lemma UnstableAccount(value: string)
    requires |value| == 65 && value[0] == '_' && value[63] == '-' && value[64] == 'b'
    requires forall i :: 0 <= i < |value| ==> IdChar(value[i])
    ensures NormalizeAccountId(NormalizeAccountId(value)) != NormalizeAccountId(value)
  {
    hide Trim, ToLower, CollapseInvalid, IdChar;
    var cut := value[..64];
    SafeTrimmed(value);
    ToLowerFixed(value);
    CollapseFixed(value, false);
    assert !ValidId(value);
    assert StripLeadingDashes(value) == value && StripTrailingDashes(value) == value;
    assert Canonicalize(value) == cut;
    assert |"__proto__"| == 9 && |"prototype"| == 9 && |"constructor"| == 11;
    assert NormalizeAccountId(value) == cut && cut[0] == '_' && cut[63] == '-';
    NormalizeTwice(value);
  }

  // ------------------------------------------------------------- agent session keys

  function NonEmpty(parts: seq<string>): seq<string> {
    if parts == [] then [] else (if parts[0] == "" then [] else [parts[0]]) + NonEmpty(parts[1..])
  }

  lemma {:induction false} NonEmptyAll(parts: seq<string>)
    requires forall p :: p in parts ==> p != ""
    ensures NonEmpty(parts) == parts
    decreases |parts|
  {
    if parts == [] {
    } else {
      assert parts[0] in parts && parts == [parts[0]] + parts[1..];
      assert forall p :: p in parts[1..] ==> p in parts;
      NonEmptyAll(parts[1..]);
    }
  }

  /** The agent and the rest of an `agent:<id>:<rest>` key. */
  function ParseAgentSessionKey(sessionKey: string): Option<(string, string)> {
    var raw := ToLower(Trim(sessionKey));
    var parts := NonEmpty(Split(raw, ':'));
    if raw == "" || |parts| < 3 || parts[0] != "agent" then None else
    var agentId, rest := Trim(parts[1]), Join(parts[2..], ":");
    if agentId == "" || rest == "" then None else Some((agentId, rest))
  }

  lemma {:induction false} NonEmptyAppend(a: seq<string>, b: seq<string>)
    ensures NonEmpty(a + b) == NonEmpty(a) + NonEmpty(b)
    decreases |a|
  {
    if a == [] {
      assert a + b == b;
    } else {
      assert (a + b)[1..] == a[1..] + b;
      NonEmptyAppend(a[1..], b);
    }
  }

  lemma {:induction false} NonEmptyMembers(parts: seq<string>)
    ensures forall p :: p in NonEmpty(parts) <==> p in parts && p != ""
    decreases |parts|
  {
    if parts == [] {
    } else {
      NonEmptyMembers(parts[1..]);
      assert forall p :: p in parts <==> p == parts[0] || p in parts[1..];
    }
  }

  /** A session key is `agent`, an agent and a rest of at least one part, all that is left of it in lower case without
      the empty parts between its colons. */
  lemma AgentKeyExactly(sessionKey: string, agent: string, rest: string)
    ensures var parts := NonEmpty(Split(ToLower(Trim(sessionKey)), ':'));
      ParseAgentSessionKey(sessionKey) == Some((agent, rest)) <==>
        |parts| > 2 && parts[0] == "agent" && Trim(parts[1]) == agent && Join(parts[2..], ":") == rest &&
        agent != "" && rest != ""
  {
    hide Trim, Split, NonEmpty, ToLower, Join;
    EmptySplit();
  }

  lemma EmptySplit()
    ensures NonEmpty(Split("", ':')) == []
  {
    assert Split("", ':') == [""];
    assert [""][1..] == [];
  }
}
