// src/acp/persistent-bindings.resolve.ts, persistent-bindings.types.ts and conversation-id.ts:
// configured bindings found by conversation and found again by session key.
module AcpBindings {
  import opened JsText
  import opened RoutingIds

  datatype Channel = Discord | Telegram

  datatype Mode = Persistent | Oneshot

  /** The overrides of one binding, or the runtime defaults of one agent. */
  datatype Settings = Settings(agent: Option<string>, mode: Option<string>, cwd: Option<string>,
    backend: Option<string>, labelText: Option<string>)

  datatype Binding = Binding(channel: Option<string>, accountId: Option<string>, peerId: Option<string>,
    agentId: Option<string>, acp: Settings)

  /** The configuration: its ACP bindings in order, which agent a requested agent id resolves to, and the runtime
      defaults of that agent. */
  datatype Config = Config(bindings: seq<Binding>, pickAgent: string -> string, runtimeDefaults: string -> Settings)

  datatype Spec = Spec(
    channel: Channel, accountId: string, conversationId: string, parentConversationId: Option<string>, agentId: string,
    acpAgentId: Option<string>, mode: Mode, cwd: Option<string>, backend: Option<string>, labelText: Option<string>)

  datatype Record = Record(bindingId: string, targetSessionKey: string, conversation: Spec)

  datatype Resolved = Resolved(spec: Spec, record: Record)

  function NormalizeText(value: Option<string>): Option<string> {
    if value.None? || Trim(value.value) == "" then None else Some(Trim(value.value))
  }

  function NormalizeMode(value: Option<string>): Mode {
    var raw := NormalizeText(value);
    if raw.Some? && ToLower(raw.value) == "oneshot" then Oneshot else Persistent
  }

  function OrElse(a: Option<string>, b: Option<string>): Option<string> {
    if a.Some? then a else b
  }

  function ChannelName(c: Channel): string {
    match c
    case Discord => "discord"
    case Telegram => "telegram"
  }

  function NormalizeBindingChannel(value: Option<string>): Option<Channel> {
    var normalized := if value.None? then "" else ToLower(Trim(value.value));
    if normalized == "discord" then Some(Discord) else if normalized == "telegram" then Some(Telegram) else None
  }

  /** 2 for a binding of exactly this account, 1 for a wildcard, 0 for no match. */
  function ResolveAccountMatchPriority(match': Option<string>, actual: string): (p: int)
    ensures 0 <= p <= 2
  {
    var trimmed := if match'.None? then "" else Trim(match'.value);
    if trimmed == "" then (if actual == DEFAULT_ACCOUNT_ID then 2 else 0)
    else if trimmed == "*" then 1
    else if NormalizeAccountId(trimmed) == actual then 2 else 0
  }

  function ResolveBindingConversationId(b: Binding): Option<string> {
    NormalizeText(b.peerId)
  }

  // --------------------------------------------------------------- telegram topics

  datatype Topic = Topic(chatId: string, topicId: string, canonicalConversationId: string)

  predicate Digits(s: string) {
    s != "" && forall i :: 0 <= i < |s| ==> '0' <= s[i] <= '9'
  }

  predicate SignedDigits(s: string) {
    Digits(if s != "" && s[0] == '-' then s[1..] else s)
  }

  const TOPIC_INFIX := ":topic:"

  function BuildTelegramTopicConversationId(chatId: string, topicId: string): Option<string> {
    if SignedDigits(Trim(chatId)) && Digits(Trim(topicId)) then Some(Trim(chatId) + TOPIC_INFIX + Trim(topicId))
      else None
  }

  /** The chat and topic of `<chat>:topic:<topic>`. */
  function MatchTopic(conversation: string): Option<(string, string)> {
    var i := IndexOf(conversation, ':');
    var chat, rest := conversation[..i], conversation[i..];
    if SignedDigits(chat) && StartsWith(rest, TOPIC_INFIX) && Digits(rest[|TOPIC_INFIX|..])
      then Some((chat, rest[|TOPIC_INFIX|..])) else None
  }

  function MakeTopic(chatId: string, topicId: string): Option<Topic> {
    var canonical := BuildTelegramTopicConversationId(chatId, topicId);
    if canonical.None? then None else Some(Topic(chatId, topicId, canonical.value))
  }

  function ParseTelegramTopicConversation(conversationId: string, parentConversationId: Option<string>): Option<Topic> {
    var conversation := Trim(conversationId);
    var direct := MatchTopic(conversation);
    if direct.Some? then MakeTopic(direct.value.0, direct.value.1)
    else if !Digits(conversation) then None
    else if parentConversationId.None? || !SignedDigits(Trim(parentConversationId.value)) then None
    else MakeTopic(Trim(parentConversationId.value), conversation)
  }

  lemma DigitsTrimmed(s: string)
    ensures Digits(s) || SignedDigits(s) ==> Trim(s) == s && ':' !in s
  {
    hide Trim;
    TrimFixed(s);
    if SignedDigits(s) && s[0] == '-' {
      assert forall i :: 1 <= i < |s| ==> s[i] == s[1..][i - 1];
    }
  }

  lemma TopicParts(t: Topic, conversationId: string, parent: Option<string>)
    requires ParseTelegramTopicConversation(conversationId, parent) == Some(t)
    ensures SignedDigits(t.chatId) && Digits(t.topicId) &&
      t.canonicalConversationId == t.chatId + TOPIC_INFIX + t.topicId
  {
    hide Trim, IndexOf;
    DigitsTrimmed(t.chatId);
    DigitsTrimmed(t.topicId);
  }

  /** A canonical topic id determines the chat and the topic it names. */
  lemma CanonicalDetermines(t: Topic, u: Topic)
    requires SignedDigits(t.chatId) && SignedDigits(u.chatId)
    requires t.canonicalConversationId == t.chatId + TOPIC_INFIX + t.topicId
    requires u.canonicalConversationId == u.chatId + TOPIC_INFIX + u.topicId
    requires t.canonicalConversationId == u.canonicalConversationId
    ensures t == u
  {
    hide SignedDigits, Digits, Trim;
    DigitsTrimmed(t.chatId);
    DigitsTrimmed(u.chatId);
    FirstColon(t.chatId, t.topicId, u.chatId, u.topicId);
  }

  lemma FirstColon(p: string, t: string, q: string, u: string)
    requires ':' !in p && ':' !in q && p + TOPIC_INFIX + t == q + TOPIC_INFIX + u
    ensures p == q && t == u
  {
    var s := p + TOPIC_INFIX + t;
    assert forall k :: 0 <= k < |p| ==> s[k] == p[k];
    assert forall k :: 0 <= k < |q| ==> s[k] == q[k];
    assert s[|p|] == ':' && s[|q|] == ':';
    assert p == s[..|p|] && q == s[..|q|];
    assert t == s[|p| + |TOPIC_INFIX|..] && u == s[|q| + |TOPIC_INFIX|..];
  }

  /** Printing a topic and parsing it gives the topic back. */
  lemma TopicRoundTrip(chatId: string, topicId: string, parent: Option<string>)
    requires SignedDigits(chatId) && Digits(topicId)
    ensures var printed := BuildTelegramTopicConversationId(chatId, topicId);
      printed.Some? && ParseTelegramTopicConversation(printed.value, parent) ==
        Some(Topic(chatId, topicId, printed.value))
  {
    DigitsTrimmed(chatId);
    DigitsTrimmed(topicId);
    var s := chatId + TOPIC_INFIX + topicId;
    TopicTrimmed(chatId, topicId);
    PrintedMatches(chatId, topicId);
    hide Trim, Digits, SignedDigits, MatchTopic;
  }

  lemma PrintedMatches(chatId: string, topicId: string)
    requires SignedDigits(chatId) && Digits(topicId) && ':' !in chatId
    ensures MatchTopic(chatId + TOPIC_INFIX + topicId) == Some((chatId, topicId))
  {
    hide IndexOf, Digits, SignedDigits;
    var s := chatId + TOPIC_INFIX + topicId;
    assert s[..|chatId|] == chatId && s[|chatId|..] == TOPIC_INFIX + topicId;
    assert s[|chatId|] == ':';
    IndexOfUnique(s, ':', |chatId|);
    assert (TOPIC_INFIX + topicId)[|TOPIC_INFIX|..] == topicId;
  }

  lemma TopicTrimmed(chatId: string, topicId: string)
    requires SignedDigits(chatId) && Digits(topicId)
    ensures Trim(chatId + TOPIC_INFIX + topicId) == chatId + TOPIC_INFIX + topicId
  {
    hide Trim;
    var s := chatId + TOPIC_INFIX + topicId;
    assert s[0] == chatId[0] && s[|s| - 1] == topicId[|topicId| - 1];
    TrimFixed(s);
  }

  // ------------------------------------------------------------------ specs and keys

  function ToConfiguredBindingSpec(cfg: Config, channel: Channel, accountId: string, conversationId: string,
      parent: Option<string>, b: Binding): Spec {
    var agentId := cfg.pickAgent(if b.agentId.Some? then b.agentId.value else "main");
    var defaults := cfg.runtimeDefaults(agentId);
    var overrideMode := NormalizeText(b.acp.mode);
    Spec(channel, NormalizeAccountId(accountId), conversationId, parent, agentId, NormalizeText(defaults.agent),
         if overrideMode.Some? then NormalizeMode(overrideMode) else NormalizeMode(defaults.mode),
         OrElse(NormalizeText(b.acp.cwd), NormalizeText(defaults.cwd)),
           OrElse(NormalizeText(b.acp.backend), NormalizeText(defaults.backend)),
         NormalizeText(b.acp.labelText))
  }

  function Identity(s: Spec): string {
    ChannelName(s.channel) + ":" + s.accountId + ":" + s.conversationId
  }

  /** The session key; `hash` is the 16-digit prefix of the digest. */
  function BuildConfiguredAcpSessionKey(hash: string -> string, s: Spec): string {
    Join(["agent", SanitizeAgentId(s.agentId), "acp", "binding", ChannelName(s.channel), s.accountId,
      hash(Identity(s))], ":")
  }

  function ToConfiguredAcpBindingRecord(hash: string -> string, s: Spec): Record {
    Record("config:acp:" + Identity(s), BuildConfiguredAcpSessionKey(hash, s), s)
  }

  function ParseConfiguredBindingSessionKey(sessionKey: string): Option<(Channel, string)> {
    var parsed := ParseAgentSessionKey(sessionKey);
    if parsed.None? then None else
    var rest := ToLower(Trim(parsed.value.1));
    if rest == "" then None else
    var tokens := Split(rest, ':');
    if |tokens| != 5 || tokens[0] != "acp" || tokens[1] != "binding" then None else
    var channel := NormalizeBindingChannel(Some(tokens[2]));
    if channel.None? then None else Some((channel.value, NormalizeAccountId(tokens[3])))
  }

  // ----------------------------------------------------------------- the two searches

  /** What a binding offers a search: its account priority and the spec it would give. */
  type Offer = Option<(int, Spec)>

  /** The first exact offer, or else the first wildcard offer; `wild` is the first wildcard seen so far. */
  function Best(bindings: seq<Binding>, offer: Binding -> Offer, wild: Option<Spec>): Option<Spec> {
    if bindings == [] then wild else
    var o := offer(bindings[0]);
    if o.None? then Best(bindings[1..], offer, wild)
    else if o.value.0 == 2 then Some(o.value.1)
    else Best(bindings[1..], offer, if wild.Some? then wild else Some(o.value.1))
  }

  type Selector = Binding -> Option<(string, Option<string>)>

  function ConversationOffer(cfg: Config, channel: Channel, accountId: string, select: Selector, b: Binding): Offer {
    hide ToConfiguredBindingSpec, NormalizeBindingChannel, ResolveAccountMatchPriority;
    var priority := ResolveAccountMatchPriority(b.accountId, accountId);
    if NormalizeBindingChannel(b.channel) != Some(channel) || priority == 0 || select(b).None? then None
    else Some((priority, ToConfiguredBindingSpec(cfg, channel, accountId, select(b).value.0, select(b).value.1, b)))
  }

  function ConversationOffers(cfg: Config, channel: Channel, accountId: string, select: Selector): Binding -> Offer {
    b => ConversationOffer(cfg, channel, accountId, select, b)
  }

  method ResolveConfiguredBindingRecord(hash: string -> string, cfg: Config, bindings: seq<Binding>, channel: Channel,
      accountId: string, select: Selector)
    returns (r: Option<Resolved>)
    ensures var found := Best(bindings, ConversationOffers(cfg, channel, accountId, select), None);
      r == if found.Some? then Some(Resolved(found.value, ToConfiguredAcpBindingRecord(hash, found.value))) else None
  {
    hide ToConfiguredBindingSpec, NormalizeBindingChannel, ResolveAccountMatchPriority, ToConfiguredAcpBindingRecord;
    ghost var offers := ConversationOffers(cfg, channel, accountId, select);
    var wildcardMatch: Option<Spec> := None;
    assert bindings[0..] == bindings;
    for k := 0 to |bindings|
      invariant Best(bindings[k..], offers, wildcardMatch) == Best(bindings, offers, None)
    {
      var binding := bindings[k];
      assert bindings[k..][0] == binding && bindings[k..][1..] == bindings[k + 1..];
      assert offers(binding) == ConversationOffer(cfg, channel, accountId, select, binding);
      if NormalizeBindingChannel(binding.channel) != Some(channel) {
        continue;
      }
      var accountMatchPriority := ResolveAccountMatchPriority(binding.accountId, accountId);
      if accountMatchPriority == 0 {
        continue;
      }
      var conversation := select(binding);
      if conversation.None? {
        continue;
      }
      var spec := ToConfiguredBindingSpec(cfg, channel, accountId, conversation.value.0, conversation.value.1, binding);
      if accountMatchPriority == 2 {
        return Some(Resolved(spec, ToConfiguredAcpBindingRecord(hash, spec)));
      }
      if wildcardMatch.None? {
        wildcardMatch := Some(spec);
      }
    }
    if wildcardMatch.None? {
      return None;
    }
    r := Some(Resolved(wildcardMatch.value, ToConfiguredAcpBindingRecord(hash, wildcardMatch.value)));
  }

  /** The conversation a binding names: the id and, for a telegram topic in a group, its chat. */
  function BoundConversation(channel: Channel, b: Binding): Option<(string, Option<string>)> {
    var id := ResolveBindingConversationId(b);
    if id.None? then None else
    match channel
    case Discord => Some((id.value, None))
    case Telegram =>
      var topic := ParseTelegramTopicConversation(id.value, None);
      if topic.None? || !StartsWith(topic.value.chatId, "-") then None
      else Some((topic.value.canonicalConversationId, Some(topic.value.chatId)))
  }

  function KeyOffer(hash: string -> string, cfg: Config, sessionKey: string, channel: Channel, accountId: string,
      b: Binding): Offer {
    var priority := ResolveAccountMatchPriority(b.accountId, accountId);
    var bound := BoundConversation(channel, b);
    if NormalizeBindingChannel(b.channel) != Some(channel) || priority == 0 || bound.None? then None else
    var spec := ToConfiguredBindingSpec(cfg, channel, accountId, bound.value.0, bound.value.1, b);
    if BuildConfiguredAcpSessionKey(hash, spec) == sessionKey then Some((priority, spec)) else None
  }

  function KeyOffers(hash: string -> string, cfg: Config, sessionKey: string, channel: Channel, accountId: string):
      Binding -> Offer {
    b => KeyOffer(hash, cfg, sessionKey, channel, accountId, b)
  }

  function SpecBySessionKey(hash: string -> string, cfg: Config, sessionKey: string): Option<Spec> {
    var key := Trim(sessionKey);
    var parsed := ParseConfiguredBindingSessionKey(key);
    if key == "" || parsed.None? then None
    else Best(cfg.bindings, KeyOffers(hash, cfg, key, parsed.value.0, parsed.value.1), None)
  }

  method ResolveConfiguredAcpBindingSpecBySessionKey(hash: string -> string, cfg: Config, key: string)
      returns (r: Option<Spec>)
    ensures r == SpecBySessionKey(hash, cfg, key)
  {
    hide ToConfiguredBindingSpec, NormalizeBindingChannel, ResolveAccountMatchPriority, BuildConfiguredAcpSessionKey,
         ParseConfiguredBindingSessionKey, Trim, ParseTelegramTopicConversation;
    var sessionKey := Trim(key);
    if sessionKey == "" {
      return None;
    }
    var parsed := ParseConfiguredBindingSessionKey(sessionKey);
    if parsed.None? {
      return None;
    }
    var (wanted, accountId) := parsed.value;
    ghost var offers := KeyOffers(hash, cfg, sessionKey, wanted, accountId);
    var wildcardMatch: Option<Spec> := None;
    assert cfg.bindings[0..] == cfg.bindings;
    for k := 0 to |cfg.bindings|
      invariant Best(cfg.bindings[k..], offers, wildcardMatch) == Best(cfg.bindings, offers, None)
    {
      var binding := cfg.bindings[k];
      assert cfg.bindings[k..][0] == binding && cfg.bindings[k..][1..] == cfg.bindings[k + 1..];
      assert offers(binding) == KeyOffer(hash, cfg, sessionKey, wanted, accountId, binding);
      var channel := NormalizeBindingChannel(binding.channel);
      if channel.None? || channel.value != wanted {
        continue;
      }
      var accountMatchPriority := ResolveAccountMatchPriority(binding.accountId, accountId);
      if accountMatchPriority == 0 {
        continue;
      }
      var target := ResolveBindingConversationId(binding);
      if target.None? {
        continue;
      }
      var spec;
      if channel.value == Discord {
        spec := ToConfiguredBindingSpec(cfg, Discord, accountId, target.value, None, binding);
      } else {
        var parsedTopic := ParseTelegramTopicConversation(target.value, None);
        if parsedTopic.None? || !StartsWith(parsedTopic.value.chatId, "-") {
          continue;
        }
        spec := ToConfiguredBindingSpec(cfg, Telegram, accountId, parsedTopic.value.canonicalConversationId,
          Some(parsedTopic.value.chatId), binding);
      }
      if BuildConfiguredAcpSessionKey(hash, spec) == sessionKey {
        if accountMatchPriority == 2 {
          return Some(spec);
        }
        if wildcardMatch.None? {
          wildcardMatch := Some(spec);
        }
      }
    }
    r := wildcardMatch;
  }

  // ------------------------------------------------------------ by conversation, in full

  /** Selects the discord bindings of one conversation. */
  function SelectDiscord(target: string): Selector {
    b => if ResolveBindingConversationId(b) == Some(target) then Some((target, None)) else None
  }

  /** Selects the telegram bindings of one topic. */
  function SelectTopic(wanted: Topic): Selector {
    b => var bound := BoundConversation(Telegram, b);
      if bound.Some? && bound.value.0 == wanted.canonicalConversationId
        then Some((wanted.canonicalConversationId, Some(wanted.chatId))) else None
  }

  function SpecByDiscord(cfg: Config, accountId: string, target: string): Option<Spec> {
    Best(cfg.bindings, ConversationOffers(cfg, Discord, accountId, SelectDiscord(target)), None)
  }

  /** The spec a conversation resolves to: its own binding, for discord else its parent's. */
  function SpecByConversation(cfg: Config, channel: string, accountId: string, conversationId: string,
      parent: Option<string>): Option<Spec> {
    var channelName, account, conversation := ToLower(Trim(channel)), NormalizeAccountId(accountId),
      Trim(conversationId);
    var parentId := NormalizeText(parent);
    if conversation == "" then None
    else if channelName == "discord" then
      var direct := SpecByDiscord(cfg, account, conversation);
      if direct.Some? then direct
      else if parentId.Some? && parentId.value != conversation then SpecByDiscord(cfg, account, parentId.value)
      else None
    else if channelName == "telegram" then
      var topic := ParseTelegramTopicConversation(conversation, parentId);
      if topic.None? || !StartsWith(topic.value.chatId, "-") then None
      else Best(cfg.bindings, ConversationOffers(cfg, Telegram, account, SelectTopic(topic.value)), None)
    else None
  }

  method ResolveConfiguredAcpBindingRecord(hash: string -> string, cfg: Config, channel: string, accountId: string,
      conversationId: string, parent: Option<string>)
    returns (r: Option<Resolved>)
    ensures var found := SpecByConversation(cfg, channel, accountId, conversationId, parent);
      r == if found.Some? then Some(Resolved(found.value, ToConfiguredAcpBindingRecord(hash, found.value))) else None
  {
    hide Best, Trim, ToLower, NormalizeAccountId, NormalizeText, ToConfiguredAcpBindingRecord,
      ParseTelegramTopicConversation, SelectDiscord, SelectTopic;
    var channelName, account, conversation := ToLower(Trim(channel)), NormalizeAccountId(accountId),
      Trim(conversationId);
    var parentId := NormalizeText(parent);
    if conversation == "" {
      return None;
    }
    if channelName == "discord" {
      r := ResolveConfiguredBindingRecord(hash, cfg, cfg.bindings, Discord, account, SelectDiscord(conversation));
      if r.Some? {
        return;
      }
      if parentId.Some? && parentId.value != conversation {
        r := ResolveConfiguredBindingRecord(hash, cfg, cfg.bindings, Discord, account, SelectDiscord(parentId.value));
      }
      return;
    }
    if channelName == "telegram" {
      var parsed := ParseTelegramTopicConversation(conversation, parentId);
      if parsed.None? || !StartsWith(parsed.value.chatId, "-") {
        return None;
      }
      r := ResolveConfiguredBindingRecord(hash, cfg, cfg.bindings, Telegram, account, SelectTopic(parsed.value));
      return;
    }
    r := None;
  }
}
