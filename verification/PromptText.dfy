// src/acp/event-mapper.ts: the text of a prompt, with the guard that counts its
// bytes block by block.
module PromptText {
  import opened JsText

  /** `Other` stands for images and every other block without text. */
  datatype Block = TextBlock(text: string) | Resource(contents: Option<string>) | ResourceLink(title: Option<string>,
    uri: Option<string>) | Other

  // ----------------------------------------------------------------- resource links

  predicate IsInlineControl(c: char) {
    var n := c as int;
    n <= 0x1f || 0x7f <= n <= 0x9f || n == 0x2028 || n == 0x2029
  }

  /** No character that could end the line or hide in it. */
  ghost predicate OneLine(s: string) {
    forall c :: c in s ==> !IsInlineControl(c)
  }

  function HexDigit(n: nat): (c: char)
    requires n < 16
    ensures !IsInlineControl(c)
  {
    if n < 10 then ('0' as int + n) as char else ('a' as int + n - 10) as char
  }

  function EscapeChar(c: char): (s: string)
    requires IsInlineControl(c)
    ensures OneLine(s)
  {
    var n := c as int;
    if n == 0 then "\\0" else if n == 13 then "\\r" else if n == 10 then "\\n" else if n == 9 then "\\t"
    else if n == 11 then "\\v" else if n == 12 then "\\f" else if n == 0x2028 then "\\u2028" else if n == 0x2029
      then "\\u2029"
    else "\\x" + [HexDigit(n / 16), HexDigit(n % 16)]
  }

  function EscapeInlineControlChars(value: string): (s: string)
    ensures OneLine(s)
  {
    if value == "" then ""
    else (if IsInlineControl(value[0]) then EscapeChar(value[0]) else [value[0]]) + EscapeInlineControlChars(value[1..])
  }

  predicate IsBracket(c: char) {
    c == '(' || c == ')' || c == '[' || c == ']'
  }

  function EscapeBrackets(value: string): string {
    if value == "" then "" else
    (if IsBracket(value[0]) then ['\\', value[0]] else [value[0]]) + EscapeBrackets(value[1..])
  }

  function LinkText(title: Option<string>, uri: Option<string>): string {
    var shown := if title.Some? && title.value != ""
      then " (" + EscapeBrackets(EscapeInlineControlChars(title.value)) + ")" else "";
    var target := if uri.Some? then EscapeInlineControlChars(uri.value) else "";
    if target != "" then "[Resource link" + shown + "] " + target else "[Resource link" + shown + "]"
  }

  /** Only printable ASCII and what comes after the C1 controls is kept, but not the line and paragraph separators. */
  lemma InlineControlExactly(c: char)
    ensures var n := c as int;
      !IsInlineControl(c) <==> 0x20 <= n < 0x7F || (0xA0 <= n && n != 0x2028 && n != 0x2029)
  {}

  /** The value of a lower-case hexadecimal digit. */
  function HexValue(c: char): int {
    if '0' <= c <= '9' then c as int - 48 else if 'a' <= c <= 'f' then c as int - 87 else -1
  }

  /** The escapes of control characters: the usual letter, four digits for the separators, and else two digits. */
  lemma EscapeExactly(c: char)
    requires IsInlineControl(c)
    ensures var n, s := c as int, EscapeChar(c);
      (n == 0x00 ==> s == "\\0") && (n == 0x09 ==> s == "\\t") && (n == 0x0A ==> s == "\\n") &&
      (n == 0x0B ==> s == "\\v") && (n == 0x0C ==> s == "\\f") && (n == 0x0D ==> s == "\\r") &&
      (n == 0x2028 ==> s == "\\u2028") && (n == 0x2029 ==> s == "\\u2029") &&
      (n !in {0x00, 0x09, 0x0A, 0x0B, 0x0C, 0x0D, 0x2028, 0x2029} ==>
        |s| == 4 && s[..2] == "\\x" && HexValue(s[2]) >= 0 && HexValue(s[3]) >= 0 &&
        16 * HexValue(s[2]) + HexValue(s[3]) == n)
  {}

  /** Exactly the control characters are escaped, wherever they stand. */
  lemma ControlsExactly(before: string, c: char, after: string)
    ensures EscapeInlineControlChars(before + [c] + after) ==
      EscapeInlineControlChars(before) + (if IsInlineControl(c) then EscapeChar(c) else [c]) +
      EscapeInlineControlChars(after)
  {
    ControlsAppend(before + [c], after);
    ControlsAppend(before, [c]);
    OneControl(c);
    hide EscapeInlineControlChars, EscapeChar;
  }

  lemma OneControl(c: char)
    ensures EscapeInlineControlChars([c]) == if IsInlineControl(c) then EscapeChar(c) else [c]
  {
    hide EscapeChar;
    assert [c][1..] == "";
  }

  lemma {:induction false} ControlsAppend(a: string, b: string)
    ensures EscapeInlineControlChars(a + b) == EscapeInlineControlChars(a) + EscapeInlineControlChars(b)
    decreases |a|
  {
    hide EscapeChar;
    if a == "" {
      assert a + b == b;
    } else {
      assert (a + b)[1..] == a[1..] + b;
      ControlsAppend(a[1..], b);
    }
  }

  /** Exactly round and square brackets get a backslash. */
  lemma BracketsExactly(before: string, c: char, after: string)
    ensures EscapeBrackets(before + [c] + after) ==
      EscapeBrackets(before) + (if c in {'(', ')', '[', ']'} then ['\\', c] else [c]) + EscapeBrackets(after)
  {
    BracketsAppend(before + [c], after);
    BracketsAppend(before, [c]);
    OneBracket(c);
    hide EscapeBrackets;
  }

  lemma OneBracket(c: char)
    ensures EscapeBrackets([c]) == if c in {'(', ')', '[', ']'} then ['\\', c] else [c]
  {
    assert [c][1..] == "";
  }

  lemma {:induction false} BracketsAppend(a: string, b: string)
    ensures EscapeBrackets(a + b) == EscapeBrackets(a) + EscapeBrackets(b)
    decreases |a|
  {
    if a == "" {
      assert a + b == b;
    } else {
      assert (a + b)[1..] == a[1..] + b;
      BracketsAppend(a[1..], b);
    }
  }

  /** The text of a link, with its title in brackets and its address behind, each only if there is one. */
  lemma LinkExactly(title: string, uri: string)
    requires title != "" && uri != ""
    ensures var shown, target := EscapeBrackets(EscapeInlineControlChars(title)), EscapeInlineControlChars(uri);
      LinkText(Some(title), Some(uri)) == "[Resource link (" + shown + ")] " + target &&
      LinkText(Some(title), None) == LinkText(Some(title), Some("")) == "[Resource link (" + shown + ")]" &&
      LinkText(None, Some(uri)) == LinkText(Some(""), Some(uri)) == "[Resource link] " + target &&
      LinkText(None, None) == LinkText(Some(""), Some("")) == "[Resource link]"
  {
    hide EscapeBrackets;
    var shown, target := EscapeBrackets(EscapeInlineControlChars(title)), EscapeInlineControlChars(uri);
    EscapedSomething(uri);
    assert EscapeInlineControlChars("") == "";
    assert "[Resource link" + (" (" + shown + ")") + "] " + target == "[Resource link (" + shown + ")] " + target;
    assert "[Resource link" + (" (" + shown + ")") + "]" == "[Resource link (" + shown + ")]";
    assert "[Resource link" + "" + "] " + target == "[Resource link] " + target;
    assert "[Resource link" + "" + "]" == "[Resource link]";
  }

  lemma EscapedSomething(value: string)
    ensures value != "" ==> EscapeInlineControlChars(value) != ""
  {}

  /** Whether an odd number of backslashes stands right before position `k`. */
  function Odd(s: string, k: nat): bool
    requires k <= |s|
  {
    k > 0 && s[k - 1] == '\\' && !Odd(s, k - 1)
  }

  /** Every bracket is escaped: an odd number of backslashes stands before it. */
  ghost predicate NoBareBracket(s: string) {
    forall k :: 0 <= k < |s| && IsBracket(s[k]) ==> Odd(s, k)
  }

  /** Every bracket is bare. */
  ghost predicate NoEscapedBracket(s: string) {
    forall k :: 0 <= k < |s| && IsBracket(s[k]) ==> !Odd(s, k)
  }

  /** One pass over a text after an odd or even number of backslashes: every bracket meets the wanted parity. */
  predicate Parity(s: string, odd: bool, want: bool) {
    s == "" ||
    if s[0] == '\\' then Parity(s[1..], !odd, want)
    else (IsBracket(s[0]) ==> odd == want) && Parity(s[1..], false, want)
  }

  lemma {:induction false} ParityFrom(s: string, i: nat, want: bool)
    requires i <= |s|
    ensures Parity(s[i..], Odd(s, i), want) <==> forall k :: i <= k < |s| && IsBracket(s[k]) ==> Odd(s, k) == want
    decreases |s| - i
  {
    if i == |s| {
    } else {
      assert s[i..][0] == s[i] && s[i..][1..] == s[i + 1..];
      ParityFrom(s, i + 1, want);
      assert !IsBracket('\\');
    }
  }

  lemma {:induction false} PlainParity(plain: string, rest: string, odd: bool, want: bool)
    requires plain != "" && forall k :: 0 <= k < |plain| ==> plain[k] != '\\' && !IsBracket(plain[k])
    ensures Parity(plain + rest, odd, want) == Parity(rest, false, want)
    decreases |plain|
  {
    assert (plain + rest)[0] == plain[0] && (plain + rest)[1..] == plain[1..] + rest;
    if |plain| == 1 {
      assert plain[1..] + rest == rest;
    } else {
      PlainParity(plain[1..], rest, false, want);
    }
  }

  lemma EscapedParity(c: char, rest: string, odd: bool, want: bool)
    requires IsInlineControl(c)
    ensures Parity(EscapeChar(c) + rest, odd, want) == Parity(rest, false, want)
  {
    var s := EscapeChar(c);
    assert s[0] == '\\' && (s + rest)[1..] == s[1..] + rest;
    PlainParity(s[1..], rest, !odd, want);
  }

  /** Escaping control characters leaves the backslashes before every bracket alone. */
  lemma {:induction false} ControlParity(value: string, odd: bool, want: bool)
    ensures Parity(EscapeInlineControlChars(value), odd, want) == Parity(value, odd, want)
    decreases |value|
  {
    hide EscapeChar;
    if value == "" {
    } else {
      var c, rest := value[0], EscapeInlineControlChars(value[1..]);
      ControlParity(value[1..], false, want);
      if IsInlineControl(c) {
        EscapedParity(c, rest, odd, want);
        assert !IsBracket(c) && c != '\\';
      } else {
        ControlParity(value[1..], !odd, want);
        assert ([c] + rest)[1..] == rest;
      }
    }
  }

  /** Escaping brackets adds one backslash before each. */
  lemma {:induction false} BracketParity(value: string, odd: bool)
    ensures Parity(EscapeBrackets(value), odd, true) == Parity(value, odd, false)
    decreases |value|
  {
    if value == "" {
    } else {
      var c, rest := value[0], EscapeBrackets(value[1..]);
      BracketParity(value[1..], false);
      BracketParity(value[1..], !odd);
      if IsBracket(c) {
        assert (['\\', c] + rest)[1..] == [c] + rest && ([c] + rest)[1..] == rest;
      } else {
        assert ([c] + rest)[1..] == rest;
      }
    }
  }

  /** An escaped title has no bare bracket exactly when no bracket of the title had a backslash escaping it already. */
  lemma TitleEscapedExactly(title: string)
    ensures NoBareBracket(EscapeBrackets(EscapeInlineControlChars(title))) <==> NoEscapedBracket(title)
  {
    hide EscapeBrackets, EscapeInlineControlChars, Parity;
    var inner := EscapeInlineControlChars(title);
    var escaped := EscapeBrackets(inner);
    BracketParity(inner, false);
    ControlParity(title, false, false);
    ParityFrom(escaped, 0, true);
    ParityFrom(title, 0, false);
    assert escaped[0..] == escaped && title[0..] == title;
  }

  /** The title of a backslash and a bracket comes out as an escaped backslash and a bare bracket. */
  lemma BareBracketSurvives()
    ensures EscapeBrackets(EscapeInlineControlChars("\\)")) == "\\\\)" && !NoBareBracket("\\\\)")
  {
    var title := "\\)";
    assert title[1..] == ")" && title[1..][1..] == "";
    assert EscapeInlineControlChars(")") == ")" && EscapeInlineControlChars(title) == title;
    assert EscapeBrackets(")") == "\\)" && EscapeBrackets(title) == "\\" + "\\)";
    assert "\\\\)"[2] == ')' && !Odd("\\\\)", 2);
  }

  lemma {:induction false} BracketsOneLine(value: string)
    requires OneLine(value)
    ensures OneLine(EscapeBrackets(value))
    decreases |value|
  {
    if value == "" {
    } else {
      assert !IsInlineControl(value[0]);
      BracketsOneLine(value[1..]);
    }
  }

  /** A link's text stays on one line. */
  lemma LinkOnOneLine(title: Option<string>, uri: Option<string>)
    ensures OneLine(LinkText(title, uri))
  {
    if title.Some? {
      BracketsOneLine(EscapeInlineControlChars(title.value));
    }
    assert OneLine(" (") && OneLine(")") && OneLine("[Resource link") && OneLine("] ") && OneLine("]");
  }

  // ------------------------------------------------------------------ the byte guard

  /** What a block contributes; an empty text block contributes an empty line, an empty resource nothing. */
  function BlockText(block: Block): Option<string> {
    match block
    case TextBlock(text) => Some(text)
    case Resource(contents) => if contents == Some("") then None else contents
    case ResourceLink(title, uri) => Some(LinkText(title, uri))
    case Other => None
  }

  function Parts(prompt: seq<Block>): seq<string> {
    if prompt == [] then [] else
    (if BlockText(prompt[0]).Some? then [BlockText(prompt[0]).value] else []) + Parts(prompt[1..])
  }

  function Utf8Length(c: char): nat {
    var n := c as int;
    if n < 0x80 then 1 else if n < 0x800 then 2 else if n < 0x10000 then 3 else 4
  }

  function ByteLength(s: string): nat {
    if s == "" then 0 else Utf8Length(s[0]) + ByteLength(s[1..])
  }

  /** UTF-8 takes one byte for seven bits, two for eleven, three for sixteen, and four for more. */
  lemma Utf8Exactly(c: char)
    ensures var n, bytes := c as int, Utf8Length(c);
      1 <= bytes <= 4 && (bytes <= 1 <==> n < 128) && (bytes <= 2 <==> n < 2048) && (bytes <= 3 <==> n < 65536)
  {}

  /** What the blocks of a prompt contribute: the texts, the contents of resources if any, and the links. */
  lemma BlockTextExactly(text: string, title: Option<string>, uri: Option<string>)
    ensures BlockText(TextBlock(text)) == Some(text)
    ensures BlockText(Resource(Some(text))) == if text == "" then None else Some(text)
    ensures BlockText(Resource(None)) == None && BlockText(Other) == None
    ensures BlockText(ResourceLink(title, uri)) == Some(LinkText(title, uri))
  {
    hide LinkText;
  }

  lemma {:induction false} ByteLengthConcat(a: string, b: string)
    ensures ByteLength(a + b) == ByteLength(a) + ByteLength(b)
    decreases |a|
  {
    if a == "" {
      assert a + b == b;
    } else {
      assert (a + b)[1..] == a[1..] + b;
      ByteLengthConcat(a[1..], b);
    }
  }

  /** One more part costs its own bytes and, unless it is the first, one for the line break before it. */
  lemma JoinedBytes(parts: seq<string>, last: string)
    ensures ByteLength(Join(parts + [last], "\n")) ==
      ByteLength(Join(parts, "\n")) + (if parts == [] then 0 else 1) + ByteLength(last)
  {
    JoinSnoc(parts, last, "\n");
    if parts != [] {
      var joined := Join(parts, "\n");
      assert joined + "\n" + last == joined + ("\n" + last);
      ByteLengthConcat(joined, "\n" + last);
      ByteLengthConcat("\n", last);
      assert ByteLength("\n") == 1 by { assert "\n"[1..] == ""; }
    }
  }

  /** Dropping parts from the end never adds bytes. */
  lemma {:induction false} MorePartsMoreBytes(parts: seq<string>, more: seq<string>)
    ensures ByteLength(Join(parts, "\n")) <= ByteLength(Join(parts + more, "\n"))
    decreases |more|
  {
    if more == [] {
      assert parts + more == parts;
    } else {
      var front, last := more[..|more| - 1], more[|more| - 1];
      assert parts + more == parts + front + [last];
      MorePartsMoreBytes(parts, front);
      JoinedBytes(parts + front, last);
    }
  }

  lemma {:induction false} PartsConcat(a: seq<Block>, b: seq<Block>)
    ensures Parts(a + b) == Parts(a) + Parts(b)
    decreases |a|
  {
    hide BlockText;
    if a == [] {
      assert a + b == b;
    } else {
      assert (a + b)[1..] == a[1..] + b;
      PartsConcat(a[1..], b);
    }
  }

  /** The guard that stops in the middle refuses exactly the prompts whose whole text is too long. */
  method ExtractTextFromPrompt(prompt: seq<Block>, maxBytes: Option<int>) returns (r: Result<string, string>)
    ensures r.Ok? ==> r.value == Join(Parts(prompt), "\n")
    ensures r.Err? <==> maxBytes.Some? && Parts(prompt) != [] && ByteLength(Join(Parts(prompt), "\n")) > maxBytes.value
  {
    hide BlockText, Join, ByteLength, Parts;
    var parts: seq<string> := [];
    var totalBytes := 0;
    EmptyText();
    assert prompt[..0] == [];
    for k := 0 to |prompt|
      invariant parts == Parts(prompt[..k])
      invariant maxBytes.Some? ==> totalBytes == ByteLength(Join(parts, "\n"))
      invariant maxBytes.Some? && parts != [] ==> totalBytes <= maxBytes.value
    {
      assert prompt[..k + 1] == prompt[..k] + [prompt[k]];
      PartsSnoc(prompt[..k], prompt[k]);
      var blockText := BlockText(prompt[k]);
      if blockText.Some? {
        JoinedBytes(parts, blockText.value);
        if maxBytes.Some? {
          var separatorBytes := if |parts| > 0 then 1 else 0;
          totalBytes := totalBytes + separatorBytes + ByteLength(blockText.value);
          if totalBytes > maxBytes.value {
            PartsConcat(prompt[..k + 1], prompt[k + 1..]);
            assert prompt[..k + 1] + prompt[k + 1..] == prompt;
            MorePartsMoreBytes(parts + [blockText.value], Parts(prompt[k + 1..]));
            return Err("Prompt exceeds maximum allowed size");
          }
        }
        parts := parts + [blockText.value];
      }
    }
    assert prompt[..|prompt|] == prompt;
    return Ok(Join(parts, "\n"));
  }

  lemma EmptyText()
    ensures ByteLength(Join([], "\n")) == 0 && Parts([]) == []
  {}

  lemma PartsSnoc(before: seq<Block>, block: Block)
    ensures BlockText(block).Some? ==> Parts(before + [block]) == Parts(before) + [BlockText(block).value]
    ensures BlockText(block).None? ==> Parts(before + [block]) == Parts(before)
  {
    hide BlockText, Parts;
    PartsConcat(before, [block]);
    PartsOfOne(block);
    assert Parts(before) + [] == Parts(before);
  }

  lemma PartsOfOne(block: Block)
    ensures Parts([block]) == if BlockText(block).Some? then [BlockText(block).value] else []
  {
    hide BlockText;
    assert [block][1..] == [];
  }
}
