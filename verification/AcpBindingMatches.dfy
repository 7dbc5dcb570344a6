// Which binding src/acp/persistent-bindings.resolve.ts picks, in terms of the bindings'
// own fields, and what the spec made of it holds.
module AcpBindingMatches {
  import opened JsText
  import opened RoutingIds
  import opened AcpBindings

  // --------------------------------------------------------------- what matches

  function AccountText(b: Binding): string {
    if b.accountId.None? then "" else Trim(b.accountId.value)
  }

  /** The binding names this account, or names none and the account is the default one. */
  predicate ForAccount(b: Binding, account: string) {
    if AccountText(b) == "" then account == "default"
    else AccountText(b) != "*" && NormalizeAccountId(AccountText(b)) == account
  }

  predicate ForAny(b: Binding) {
    AccountText(b) == "*"
  }

  predicate OnChannel(b: Binding, channel: Channel) {
    b.channel.Some? && ToLower(Trim(b.channel.value)) == if channel.Discord? then "discord" else "telegram"
  }

  ghost predicate Selected(b: Binding, channel: Channel, select: Selector) {
    OnChannel(b, channel) && select(b).Some?
  }

  /** The `k`-th binding is the first selected one for the account. */
  ghost predicate FirstFor(bindings: seq<Binding>, channel: Channel, account: string, select: Selector, k: nat) {
    k < |bindings| && Selected(bindings[k], channel, select) && ForAccount(bindings[k], account) &&
    forall j :: 0 <= j < k && Selected(bindings[j], channel, select) ==> !ForAccount(bindings[j], account)
  }

  /** The `k`-th binding is the first selected one for any account. */
  ghost predicate FirstAny(bindings: seq<Binding>, channel: Channel, select: Selector, k: nat) {
    k < |bindings| && Selected(bindings[k], channel, select) && ForAny(bindings[k]) &&
    forall j :: 0 <= j < k && Selected(bindings[j], channel, select) ==> !ForAny(bindings[j])
  }

  ghost predicate NoneFor(bindings: seq<Binding>, channel: Channel, account: string, select: Selector) {
    forall b :: b in bindings && Selected(b, channel, select) ==> !ForAccount(b, account)
  }

  ghost predicate NoneAny(bindings: seq<Binding>, channel: Channel, select: Selector) {
    forall b :: b in bindings && Selected(b, channel, select) ==> !ForAny(b)
  }

  function SpecOf(cfg: Config, channel: Channel, account: string, select: Selector, b: Binding): Spec
    requires select(b).Some?
  {
    ToConfiguredBindingSpec(cfg, channel, account, select(b).value.0, select(b).value.1, b)
  }

  /** What a search returns: the spec of the first selected binding for the account, wherever it stands; else that of
      the first for any account; else nothing. */
  ghost predicate Finds(cfg: Config, bindings: seq<Binding>, channel: Channel, account: string, select: Selector,
      r: Option<Spec>)
  {
    if !NoneFor(bindings, channel, account, select) then
      exists k: nat ::
        FirstFor(bindings, channel, account, select, k) &&
        r == Some(SpecOf(cfg, channel, account, select, bindings[k]))
    else if !NoneAny(bindings, channel, select) then
      exists k: nat ::
        FirstAny(bindings, channel, select, k) && r == Some(SpecOf(cfg, channel, account, select, bindings[k]))
    else r == None
  }

  lemma OfferExactly(cfg: Config, channel: Channel, account: string, select: Selector, b: Binding)
    ensures var o := ConversationOffers(cfg, channel, account, select)(b);
      if !Selected(b, channel, select) then o == None
      else if ForAccount(b, account) then o == Some((2, SpecOf(cfg, channel, account, select, b)))
      else if ForAny(b) then o == Some((1, SpecOf(cfg, channel, account, select, b)))
      else o == None
  {
    hide ToConfiguredBindingSpec, NormalizeAccountId, Trim, ToLower;
    assert "discord"[0] == 'd' && "telegram"[0] == 't';
    BlankChannel();
  }

  lemma BlankChannel()
    ensures NormalizeBindingChannel(None) == None
  {}

  /** The search from its state on: `wild` is the spec of the first binding for any account so far. */
  ghost predicate FindsFrom(cfg: Config, bindings: seq<Binding>, channel: Channel, account: string, select: Selector,
      wild: Option<Spec>, r: Option<Spec>)
  {
    if wild.Some? && NoneFor(bindings, channel, account, select) then r == wild
    else Finds(cfg, bindings, channel, account, select, r)
  }

  lemma {:induction false} BestFinds(cfg: Config, bindings: seq<Binding>, channel: Channel, account: string,
      select: Selector, wild: Option<Spec>)
    ensures FindsFrom(cfg, bindings, channel, account, select, wild,
      Best(bindings, ConversationOffers(cfg, channel, account, select), wild))
    decreases |bindings|
  {
    hide ConversationOffers, ForAccount, ForAny, OnChannel, ToConfiguredBindingSpec;
    if bindings == [] {
    } else {
      var b, rest := bindings[0], bindings[1..];
      OfferExactly(cfg, channel, account, select, b);
      ForAnyIsNot(b, account);
      var taken := Selected(b, channel, select) && ForAny(b);
      var next := if wild.None? && taken then Some(SpecOf(cfg, channel, account, select, b)) else wild;
      if Selected(b, channel, select) && ForAccount(b, account) {
        assert FirstFor(bindings, channel, account, select, 0);
      } else {
        BestFinds(cfg, rest, channel, account, select, next);
        FindsNext(cfg, bindings, channel, account, select, wild,
          Best(bindings, ConversationOffers(cfg, channel, account, select), wild));
      }
    }
  }

  lemma ForAnyIsNot(b: Binding, account: string)
    ensures ForAny(b) ==> !ForAccount(b, account)
  {
    hide Trim, NormalizeAccountId;
  }

  lemma FirstsShift(bindings: seq<Binding>, channel: Channel, account: string, select: Selector, k: nat)
    requires bindings != []
    ensures var b, rest := bindings[0], bindings[1..];
      (FirstFor(rest, channel, account, select, k) && !(Selected(b, channel, select) && ForAccount(b, account)) ==>
        FirstFor(bindings, channel, account, select, k + 1)) &&
      (FirstAny(rest, channel, select, k) && !(Selected(b, channel, select) && ForAny(b)) ==>
        FirstAny(bindings, channel, select, k + 1))
  {
    hide OnChannel, ForAccount, ForAny;
    assert forall j :: 0 < j < |bindings| ==> bindings[j] == bindings[1..][j - 1];
  }

  lemma FindsNext(cfg: Config, bindings: seq<Binding>, channel: Channel, account: string, select: Selector,
      wild: Option<Spec>, r: Option<Spec>)
    requires bindings != [] && !(Selected(bindings[0], channel, select) && ForAccount(bindings[0], account))
    requires var taken := Selected(bindings[0], channel, select) && ForAny(bindings[0]);
      FindsFrom(cfg, bindings[1..], channel, account, select,
        if wild.None? && taken then Some(SpecOf(cfg, channel, account, select, bindings[0])) else wild, r)
    ensures FindsFrom(cfg, bindings, channel, account, select, wild, r)
  {
    hide OnChannel, ForAccount, ForAny, SpecOf;
    var b, rest := bindings[0], bindings[1..];
    assert forall x :: x in bindings <==> x == b || x in rest;
    if !NoneFor(rest, channel, account, select) {
      var k: nat :| FirstFor(rest, channel, account, select, k) &&
        r == Some(SpecOf(cfg, channel, account, select, rest[k]));
      FirstsShift(bindings, channel, account, select, k);
      assert bindings[k + 1] == rest[k];
    } else if Selected(b, channel, select) && ForAny(b) {
      assert FirstAny(bindings, channel, select, 0);
    } else if wild.None? && !NoneAny(rest, channel, select) {
      var k: nat :| FirstAny(rest, channel, select, k) && r == Some(SpecOf(cfg, channel, account, select, rest[k]));
      FirstsShift(bindings, channel, account, select, k);
      assert bindings[k + 1] == rest[k];
    }
  }

  // ------------------------------------------------------------- the conversations

  /** The conversation a binding is for, without the white space around it. */
  predicate Peer(b: Binding, id: string) {
    id != "" && b.peerId.Some? && Trim(b.peerId.value) == id
  }

  /** A discord binding is selected for its own conversation, a telegram binding of a group for its own topic. */
  lemma SelectsExactly(b: Binding, target: string, wanted: Topic)
    ensures SelectDiscord(target)(b) == if Peer(b, target) then Some((target, None)) else None
    ensures SelectTopic(wanted)(b) ==
      if exists id, t ::
        Peer(b, id) && ParseTelegramTopicConversation(id, None) == Some(t) && "-" <= t.chatId &&
        t.canonicalConversationId == wanted.canonicalConversationId
      then Some((wanted.canonicalConversationId, Some(wanted.chatId))) else None
  {
    hide Trim, ParseTelegramTopicConversation;
    if b.peerId.Some? && Trim(b.peerId.value) != "" {
      var id := Trim(b.peerId.value);
      assert Peer(b, id);
      var topic := ParseTelegramTopicConversation(id, None);
      assert topic.Some? ==> ParseTelegramTopicConversation(id, None) == Some(topic.value);
    }
  }

  predicate DigitChar(c: char) {
    c in {'0', '1', '2', '3', '4', '5', '6', '7', '8', '9'}
  }

  lemma DigitCharExactly(c: char)
    ensures DigitChar(c) <==> '0' <= c <= '9'
  {}

  /** Digits are the ten of ASCII, at least one; a sign is one minus in front of them. */
  lemma DigitsExactly(s: string)
    ensures Digits(s) <==> s != "" && forall i :: 0 <= i < |s| ==> DigitChar(s[i])
    ensures SignedDigits(s) <==> exists digits :: Digits(digits) && (s == digits || s == "-" + digits)
  {
    forall c ensures DigitChar(c) <==> '0' <= c <= '9' {
      DigitCharExactly(c);
    }
    hide DigitChar;
    if SignedDigits(s) && s[0] == '-' {
      assert s == "-" + s[1..];
    }
    if digits :| Digits(digits) && (s == digits || s == "-" + digits) {
      assert s == "-" + digits ==> s[1..] == digits;
    }
  }

  /** A topic id is printed from a chat and a topic of digits, white space around them aside, and from nothing else. */
  lemma PrintedExactly(chat: string, topic: string, id: string)
    ensures BuildTelegramTopicConversationId(chat, topic) == Some(id) <==>
      SignedDigits(Trim(chat)) && Digits(Trim(topic)) && id == Trim(chat) + ":topic:" + Trim(topic)
  {
    hide Trim, Digits, SignedDigits;
  }

  /** A topic is read from its canonical text, or from digits alone with the chat as their parent, and from nothing
      else. */
  lemma TopicExactly(conversationId: string, parent: Option<string>, t: Topic)
    ensures ParseTelegramTopicConversation(conversationId, parent) == Some(t) <==>
      SignedDigits(t.chatId) && Digits(t.topicId) &&
      t.canonicalConversationId == t.chatId + ":topic:" + t.topicId &&
      (Trim(conversationId) == t.canonicalConversationId ||
        (Trim(conversationId) == t.topicId && parent.Some? && Trim(parent.value) == t.chatId))
  {
    hide Trim, Digits, SignedDigits, MatchTopic;
    var text := Trim(conversationId);
    DigitsTrimmed(t.chatId);
    DigitsTrimmed(t.topicId);
    MatchExactly(text, t.chatId, t.topicId);
    if MatchTopic(text).Some? {
      var (chat, topic) := MatchTopic(text).value;
      MatchExactly(text, chat, topic);
      DigitsTrimmed(chat);
      DigitsTrimmed(topic);
      DigitsTrimmed(text);
      assert (chat + ":topic:" + topic)[|chat|] == ':';
    } else if Digits(text) {
      DigitsTrimmed(text);
      if parent.Some? {
        DigitsTrimmed(Trim(parent.value));
      }
    }
  }

  lemma MatchExactly(text: string, chat: string, topic: string)
    ensures MatchTopic(text) == Some((chat, topic)) <==>
      SignedDigits(chat) && Digits(topic) && text == chat + ":topic:" + topic
  {
    hide IndexOf, Digits, SignedDigits;
    DigitsTrimmed(chat);
    if SignedDigits(chat) && Digits(topic) && text == chat + ":topic:" + topic {
      PrintedMatches(chat, topic);
    }
    if MatchTopic(text) == Some((chat, topic)) {
      var i := IndexOf(text, ':');
      assert text == text[..i] + text[i..] && text[i..] == TOPIC_INFIX + text[i..][|TOPIC_INFIX|..];
    }
  }

  lemma DiscordExactly(cfg: Config, account: string, target: string)
    ensures Finds(cfg, cfg.bindings, Discord, account, SelectDiscord(target), SpecByDiscord(cfg, account, target))
  {
    hide Best, ConversationOffers, SelectDiscord;
    BestFinds(cfg, cfg.bindings, Discord, account, SelectDiscord(target), None);
  }

  /** What a conversation resolves to: a discord conversation by its own bindings, else by those of its parent; a
      telegram topic of a group by its bindings; and nothing else. */
  lemma ConversationExactly(cfg: Config, channel: string, accountId: string, conversationId: string,
      parent: Option<string>)
    ensures var name, account, own := ToLower(Trim(channel)), NormalizeAccountId(accountId), Trim(conversationId);
      var r := SpecByConversation(cfg, channel, accountId, conversationId, parent);
      if own == "" then r == None
      else if name == "discord" then
        exists direct ::
          Finds(cfg, cfg.bindings, Discord, account, SelectDiscord(own), direct) &&
          if direct.Some? then r == direct
          else if parent.Some? && Trim(parent.value) != "" && Trim(parent.value) != own then
            Finds(cfg, cfg.bindings, Discord, account, SelectDiscord(Trim(parent.value)), r)
          else r == None
      else if name == "telegram" then
        var topic := ParseTelegramTopicConversation(own, if parent.Some? then Some(Trim(parent.value)) else None);
        if topic.Some? && "-" <= topic.value.chatId then
          Finds(cfg, cfg.bindings, Telegram, account, SelectTopic(topic.value), r)
        else r == None
      else r == None
  {
    hide Best, ConversationOffers, SelectDiscord, SelectTopic, Finds, Trim, ToLower, NormalizeAccountId,
      ParseTelegramTopicConversation, SpecByDiscord;
    var account, own := NormalizeAccountId(accountId), Trim(conversationId);
    DiscordExactly(cfg, account, own);
    if parent.Some? {
      DiscordExactly(cfg, account, Trim(parent.value));
      BlankParent(own, parent.value);
    }
    var topic := ParseTelegramTopicConversation(own, NormalizeText(parent));
    if topic.Some? {
      BestFinds(cfg, cfg.bindings, Telegram, account, SelectTopic(topic.value), None);
    }
  }

  /** A blank parent is none. */
  lemma BlankParent(own: string, parent: string)
    ensures ParseTelegramTopicConversation(own, NormalizeText(Some(parent))) ==
      ParseTelegramTopicConversation(own, Some(Trim(parent)))
  {
    hide Trim, MatchTopic, MakeTopic;
    TrimIdempotent(parent);
  }

  // ----------------------------------------------------------------- session keys

  /** The bindings whose own conversation gives the key. */
  function SelectKey(hash: string -> string, cfg: Config, key: string, channel: Channel, account: string): Selector {
    b =>
      var bound := BoundConversation(channel, b);
      if bound.Some? && BuildConfiguredAcpSessionKey(hash,
        ToConfiguredBindingSpec(cfg, channel, account, bound.value.0, bound.value.1, b)) == key
      then bound else None
  }

  lemma {:induction false} SameOffers(bindings: seq<Binding>, o: Binding -> Offer, p: Binding -> Offer,
      wild: Option<Spec>)
    requires forall b :: o(b) == p(b)
    ensures Best(bindings, o, wild) == Best(bindings, p, wild)
    decreases |bindings|
  {
    if bindings == [] {
    } else {
      var next := if o(bindings[0]).None? || wild.Some? then wild else Some(o(bindings[0]).value.1);
      SameOffers(bindings[1..], o, p, next);
    }
  }

  /** A key is read as a binding's exactly when its rest, the key of an agent session taken apart at its colons, has
      five parts of which the first are `acp`, `binding` and a channel; the fourth is the account. */
  lemma BindingKeyExactly(key: string, tokens: seq<string>)
    requires tokens != [] && forall x :: x in tokens ==> ':' !in x
    ensures ParseAgentSessionKey(key).None? ==> ParseConfiguredBindingSessionKey(key) == None
    ensures forall agent, rest, channel, account ::
      ParseAgentSessionKey(key) == Some((agent, rest)) && ToLower(Trim(rest)) == Join(tokens, ":") ==>
      (ParseConfiguredBindingSessionKey(key) == Some((channel, account)) <==>
        (exists name, given, digest :: tokens == ["acp", "binding", name, given, digest] &&
          NormalizeBindingChannel(Some(name)) == Some(channel) && account == NormalizeAccountId(given)))
  {
    hide Trim, ToLower, NormalizeAccountId, NormalizeBindingChannel, ParseAgentSessionKey, Join, Split;
    SplitJoin(tokens, ':');
    if |tokens| == 5 {
      assert tokens == [tokens[0], tokens[1], tokens[2], tokens[3], tokens[4]];
    }
    EmptyKeyHasOneToken();
  }

  lemma EmptyKeyHasOneToken()
    ensures Split("", ':') == [""]
  {}

  /** What a session key resolves to: among the bindings that give this key, the same choice. */
  lemma KeyExactly(hash: string -> string, cfg: Config, sessionKey: string)
    ensures var key := Trim(sessionKey);
      var parsed := ParseConfiguredBindingSessionKey(key);
      var r := SpecBySessionKey(hash, cfg, sessionKey);
      if key == "" || parsed.None? then r == None
      else
        var (channel, account) := parsed.value;
        Finds(cfg, cfg.bindings, channel, account, SelectKey(hash, cfg, key, channel, account), r)
  {
    hide Trim, ParseConfiguredBindingSessionKey, BuildConfiguredAcpSessionKey, BoundConversation, Best,
      ToConfiguredBindingSpec, NormalizeBindingChannel, ResolveAccountMatchPriority;
    var key := Trim(sessionKey);
    var parsed := ParseConfiguredBindingSessionKey(key);
    if key != "" && parsed.Some? {
      var (channel, account) := parsed.value;
      var select := SelectKey(hash, cfg, key, channel, account);
      BestFinds(cfg, cfg.bindings, channel, account, select, None);
      forall b ensures KeyOffers(hash, cfg, key, channel, account)(b) ==
        ConversationOffers(cfg, channel, account, select)(b) {
        assert KeyOffers(hash, cfg, key, channel, account)(b) == KeyOffer(hash, cfg, key, channel, account, b);
        assert ConversationOffers(cfg, channel, account, select)(b) ==
          ConversationOffer(cfg, channel, account, select, b);
      }
      SameOffers(cfg.bindings, KeyOffers(hash, cfg, key, channel, account),
        ConversationOffers(cfg, channel, account, select), None);
    }
  }

  /** What a key resolves to has that key. */
  lemma FoundHasKey(hash: string -> string, cfg: Config, sessionKey: string)
    ensures var r := SpecBySessionKey(hash, cfg, sessionKey);
      r.Some? ==> BuildConfiguredAcpSessionKey(hash, r.value) == Trim(sessionKey)
  {
    hide Trim, ParseConfiguredBindingSessionKey, BuildConfiguredAcpSessionKey, BoundConversation, Best, OnChannel,
      ToConfiguredBindingSpec, ForAccount, ForAny, SpecBySessionKey;
    KeyExactly(hash, cfg, sessionKey);
  }

  // ------------------------------------------------------------------------- specs

  /** The text without the white space around it, if anything is left. */
  function Text(value: Option<string>): string {
    if value.None? then "" else Trim(value.value)
  }

  predicate Holds(field: Option<string>, text: string) {
    field == if text == "" then None else Some(text)
  }

  /** What a spec is made of: the binding's own settings come before its agent's defaults, blank ones count as missing,
      and only `oneshot` is not persistent. */
  lemma SpecExactly(cfg: Config, channel: Channel, account: string, id: string, parent: Option<string>, b: Binding)
    ensures var s := ToConfiguredBindingSpec(cfg, channel, account, id, parent, b);
      var agentId := cfg.pickAgent(if b.agentId.Some? then b.agentId.value else "main");
      var defaults := cfg.runtimeDefaults(agentId);
      var mode := if Text(b.acp.mode) != "" then Text(b.acp.mode) else Text(defaults.mode);
      s.channel == channel && s.accountId == NormalizeAccountId(account) && s.conversationId == id &&
      s.parentConversationId == parent && s.agentId == agentId &&
      Holds(s.acpAgentId, Text(defaults.agent)) && Holds(s.labelText, Text(b.acp.labelText)) &&
      Holds(s.cwd, if Text(b.acp.cwd) != "" then Text(b.acp.cwd) else Text(defaults.cwd)) &&
      Holds(s.backend, if Text(b.acp.backend) != "" then Text(b.acp.backend) else Text(defaults.backend)) &&
      (s.mode == Oneshot <==> ToLower(mode) == "oneshot")
  {
    hide Trim, ToLower, NormalizeAccountId;
    if b.acp.mode.Some? {
      TrimIdempotent(b.acp.mode.value);
    }
    assert ToLower("") != "oneshot" by { BlankLower(); }
  }

  lemma BlankLower()
    ensures ToLower("") == "" && "oneshot"[0] == 'o'
  {}

  /** The text that is hashed determines what it was made of, as accounts hold no colons. */
  lemma IdentityDetermines(s: Spec, t: Spec)
    requires ':' !in s.accountId && ':' !in t.accountId
    ensures Identity(s) == Identity(t) <==>
      s.channel == t.channel && s.accountId == t.accountId && s.conversationId == t.conversationId
  {
    if Identity(s) == Identity(t) {
      assert Identity(s)[0] == ChannelName(s.channel)[0] && Identity(t)[0] == ChannelName(t.channel)[0];
      var n := |ChannelName(s.channel)| + 1;
      assert Identity(s)[n..] == s.accountId + ":" + s.conversationId;
      assert Identity(t)[n..] == t.accountId + ":" + t.conversationId;
      Split2(s.accountId, s.conversationId, t.accountId, t.conversationId);
    }
  }

  lemma Split2(a: string, x: string, b: string, y: string)
    requires ':' !in a && ':' !in b && a + ":" + x == b + ":" + y
    ensures a == b && x == y
  {
    var s := a + ":" + x;
    assert s[|a|] == ':' && s[|b|] == ':';
    assert forall k :: 0 <= k < |a| ==> s[k] == a[k];
    assert forall k :: 0 <= k < |b| ==> s[k] == b[k];
    assert a == s[..|a|] && b == s[..|b|] && x == s[|a| + 1..] && y == s[|b| + 1..];
  }

  /** Seven parts, joined by colons. */
  lemma SevenJoined(a: string, b: string, c: string, d: string, e: string, f: string, g: string)
    ensures Join([a, b, c, d, e, f, g], ":") == a + ":" + b + ":" + c + ":" + d + ":" + e + ":" + f + ":" + g
  {
    var parts := [a, b, c, d, e, f, g];
    JoinFirst(a, b);
    JoinSnoc([a, b], c, ":");
    JoinSnoc([a, b, c], d, ":");
    JoinSnoc([a, b, c, d], e, ":");
    JoinSnoc([a, b, c, d, e], f, ":");
    JoinSnoc([a, b, c, d, e, f], g, ":");
    hide Join;
    assert [a, b] + [c] == [a, b, c] && [a, b, c] + [d] == [a, b, c, d] && [a, b, c, d] + [e] == [a, b, c, d, e];
    assert [a, b, c, d, e] + [f] == [a, b, c, d, e, f] && [a, b, c, d, e, f] + [g] == parts;
  }

  lemma JoinFirst(a: string, b: string)
    ensures Join([a, b], ":") == a + ":" + b
  {
    assert [a, b][1..] == [b];
  }

  /** The session key and the record of a spec, as texts. */
  lemma RecordExactly(hash: string -> string, s: Spec)
    ensures var channel := if s.channel.Discord? then "discord" else "telegram";
      var identity := channel + ":" + s.accountId + ":" + s.conversationId;
      var r := ToConfiguredAcpBindingRecord(hash, s);
      r.bindingId == "config:acp:" + identity && r.conversation == s &&
      r.targetSessionKey == "agent" + ":" + SanitizeAgentId(s.agentId) + ":" + "acp" + ":" + "binding" + ":" + channel +
        ":" + s.accountId + ":" + hash(identity)
  {
    hide SanitizeAgentId, Join;
    SevenJoined("agent", SanitizeAgentId(s.agentId), "acp", "binding", ChannelName(s.channel), s.accountId,
      hash(Identity(s)));
  }
}
