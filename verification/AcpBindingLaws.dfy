// The two binding searches agree through the session key they print and parse.
module AcpBindingLaws {
  import opened JsText
  import opened RoutingIds
  import opened AcpBindings

  predicate HexDigit(c: char) {
    '0' <= c <= '9' || 'a' <= c <= 'f'
  }

  /** The digest prefix is 16 hexadecimal digits. */
  ghost predicate HexHash(hash: string -> string) {
    forall s :: |hash(s)| == 16 && forall i :: 0 <= i < 16 ==> HexDigit(hash(s)[i])
  }

  /** No configured conversation of the same channel has the same digest prefix as the spec's own. */
  ghost predicate NoClash(hash: string -> string, cfg: Config, s: Spec) {
    forall b :: b in cfg.bindings && BoundConversation(s.channel, b).Some? ==>
      var other := s.(conversationId := BoundConversation(s.channel, b).value.0);
      hash(Identity(other)) == hash(Identity(s)) ==> other.conversationId == s.conversationId
  }

  // ----------------------------------------------------------------- keys as tokens

  /** A non-empty token of id characters. */
  ghost predicate Token(s: string) {
    s != "" && forall i :: 0 <= i < |s| ==> IdChar(s[i])
  }

  function KeyTokens(hash: string -> string, s: Spec): seq<string> {
    ["agent", SanitizeAgentId(s.agentId), "acp", "binding", ChannelName(s.channel), s.accountId, hash(Identity(s))]
  }

  lemma TokensOfKey(hash: string -> string, s: Spec)
    requires HexHash(hash) && SafeId(s.accountId)
    ensures forall t :: t in KeyTokens(hash, s) ==> Token(t)
  {
    hide Identity, Token, SanitizeAgentId;
    AgentSafe(s.agentId);
    PlainTokens();
    SafeToken(SanitizeAgentId(s.agentId));
    SafeToken(s.accountId);
    HexToken(hash(Identity(s)));
  }

  lemma PlainTokens()
    ensures Token("agent") && Token("acp") && Token("binding") && Token("discord") && Token("telegram") && Token("1")
  {}

  lemma SafeToken(s: string)
    requires SafeId(s)
    ensures Token(s)
  {}

  lemma HexToken(s: string)
    requires |s| == 16 && forall i :: 0 <= i < 16 ==> HexDigit(s[i])
    ensures Token(s)
  {}

  lemma TokenPlain(t: string)
    requires Token(t)
    ensures ':' !in t && Trim(t) == t && ToLower(t) == t
  {
    SafeTrimmed(t);
    ToLowerFixed(t);
  }

  lemma {:induction false} JoinedTokens(ts: seq<string>)
    requires ts != [] && forall t :: t in ts ==> Token(t)
    ensures var s := Join(ts, ":");
      s != "" && Trim(s) == s && ToLower(s) == s && Split(s, ':') == ts
  {
    var s := Join(ts, ":");
    JoinedChars(ts);
    SafeTrimmed(s);
    ToLowerFixed(s);
    forall t | t in ts ensures ':' !in t { TokenPlain(t); }
    SplitJoin(ts, ':');
  }

  lemma {:induction false} JoinedChars(ts: seq<string>)
    requires ts != [] && forall t :: t in ts ==> Token(t)
    ensures var s := Join(ts, ":"); s != "" && forall i :: 0 <= i < |s| ==> IdChar(s[i]) || s[i] == ':'
    decreases |ts|
  {
    assert ts[0] in ts && Token(ts[0]);
    if |ts| > 1 {
      JoinedChars(ts[1..]);
    }
  }

  /** Keys are equal only if all their tokens are. */
  lemma KeyDetermines(hash: string -> string, s: Spec, t: Spec)
    requires HexHash(hash) && SafeId(s.accountId) && SafeId(t.accountId)
    requires BuildConfiguredAcpSessionKey(hash, s) == BuildConfiguredAcpSessionKey(hash, t)
    ensures hash(Identity(s)) == hash(Identity(t))
  {
    hide Identity, SanitizeAgentId, Join, Split;
    TokensOfKey(hash, s);
    TokensOfKey(hash, t);
    JoinedTokens(KeyTokens(hash, s));
    JoinedTokens(KeyTokens(hash, t));
    assert KeyTokens(hash, s)[6] == KeyTokens(hash, t)[6];
  }

  lemma ChannelParses(c: Channel)
    ensures NormalizeBindingChannel(Some(ChannelName(c))) == Some(c)
  {
    PlainTokens();
    TokenPlain(ChannelName(c));
  }

  /** Parsing a printed key gives back the channel and the account it was printed for. */
  lemma KeyParses(hash: string -> string, s: Spec)
    requires HexHash(hash) && SafeId(s.accountId) && NormalizeAccountId(s.accountId) == s.accountId
    ensures var key := BuildConfiguredAcpSessionKey(hash, s);
      Trim(key) == key && key != "" && ParseConfiguredBindingSessionKey(key) == Some((s.channel, s.accountId))
  {
    hide Identity, SanitizeAgentId, Join, Split, Trim, ToLower, NormalizeAccountId, NormalizeBindingChannel, SafeId;
    var ts := KeyTokens(hash, s);
    TokensOfKey(hash, s);
    JoinedTokens(ts);
    forall t | t in ts ensures t != "" {}
    NonEmptyAll(ts);
    assert ts[1] in ts;
    TokenPlain(ts[1]);
    var rest := ts[2..];
    assert rest == ["acp", "binding", ChannelName(s.channel), s.accountId, hash(Identity(s))];
    forall t | t in rest ensures Token(t) { assert t in ts; }
    JoinedTokens(rest);
    ChannelParses(s.channel);
    assert ParseAgentSessionKey(BuildConfiguredAcpSessionKey(hash, s)) == Some((ts[1], Join(rest, ":")));
  }

  // ------------------------------------------------------------------- the searches

  lemma {:induction false} BestIsOffered(bindings: seq<Binding>, offer: Binding -> Offer, wild: Option<Spec>)
    ensures var r := Best(bindings, offer, wild);
      r.Some? ==> r == wild || exists b :: b in bindings && offer(b).Some? && offer(b).value.1 == r.value
    decreases |bindings|
  {
    if bindings == [] {
    } else {
      var o := offer(bindings[0]);
      var next := if o.None? then wild else if wild.Some? then wild else Some(o.value.1);
      BestIsOffered(bindings[1..], offer, next);
      assert bindings[0] in bindings;
    }
  }

  /** A found binding is an exact match, or there is no exact match at all and it is the first wildcard. */
  lemma {:induction false} BestIsFirstExact(bindings: seq<Binding>, offer: Binding -> Offer, wild: Option<Spec>)
    ensures var r := Best(bindings, offer, wild);
      (exists k :: 0 <= k < |bindings| && FirstAt(bindings, offer, 2, k) && r == Some(offer(bindings[k]).value.1)) ||
      ((forall b :: b in bindings ==> !Offers(offer, b, 2)) &&
       if wild.Some? then r == wild
       else if r.None? then forall b :: b in bindings ==> offer(b).None?
       else exists k :: 0 <= k < |bindings| && FirstOffer(bindings, offer, k) && r == Some(offer(bindings[k]).value.1))
    decreases |bindings|
  {
    if bindings == [] {
    } else {
      var b, rest := bindings[0], bindings[1..];
      var o := offer(b);
      if Offers(offer, b, 2) {
        assert FirstAt(bindings, offer, 2, 0);
      } else {
        var next := if o.None? then wild else if wild.Some? then wild else Some(o.value.1);
        BestIsFirstExact(rest, offer, next);
        var r := Best(bindings, offer, wild);
        if k :| 0 <= k < |rest| && FirstAt(rest, offer, 2, k) && r == Some(offer(rest[k]).value.1) {
          assert forall j :: 0 <= j <= k ==> bindings[j] == if j == 0 then b else rest[j - 1];
          assert FirstAt(bindings, offer, 2, k + 1);
        } else if wild.None? && r.Some? {
          if o.Some? {
            assert FirstOffer(bindings, offer, 0);
          } else {
            var k :| 0 <= k < |rest| && FirstOffer(rest, offer, k) && r == Some(offer(rest[k]).value.1);
            assert forall j :: 0 <= j <= k ==> bindings[j] == if j == 0 then b else rest[j - 1];
            assert FirstOffer(bindings, offer, k + 1);
          }
        }
      }
    }
  }

  ghost predicate Offers(offer: Binding -> Offer, b: Binding, priority: int) {
    offer(b).Some? && offer(b).value.0 == priority
  }

  ghost predicate FirstAt(bindings: seq<Binding>, offer: Binding -> Offer, priority: int, k: nat)
    requires k < |bindings|
  {
    Offers(offer, bindings[k], priority) && forall j :: 0 <= j < k ==> !Offers(offer, bindings[j], priority)
  }

  ghost predicate FirstOffer(bindings: seq<Binding>, offer: Binding -> Offer, k: nat)
    requires k < |bindings|
  {
    offer(bindings[k]).Some? && forall j :: 0 <= j < k ==> offer(bindings[j]).None?
  }

  /** The offers that would be made under the same key, and no others. */
  ghost predicate Keyed(hash: string -> string, key: string, offer: Binding -> Offer, keyed: Binding -> Offer,
      b: Binding) {
    keyed(b) == if offer(b).Some? && BuildConfiguredAcpSessionKey(hash, offer(b).value.1) == key then offer(b) else None
  }

  /** Keeping only the offers whose key is the winner's keeps the winner. */
  lemma {:induction false} KeyedBest(hash: string -> string, key: string, bindings: seq<Binding>,
      offer: Binding -> Offer, keyed: Binding -> Offer,
                                     wild: Option<Spec>, keyedWild: Option<Spec>, s: Spec)
    requires forall b :: b in bindings ==> Keyed(hash, key, offer, keyed, b)
    requires Best(bindings, offer, wild) == Some(s) && BuildConfiguredAcpSessionKey(hash, s) == key
    requires wild.Some? && BuildConfiguredAcpSessionKey(hash, wild.value) == key ==> keyedWild == wild
    requires wild.None? ==> keyedWild.None?
    ensures Best(bindings, keyed, keyedWild) == Some(s)
    decreases |bindings|
  {
    hide BuildConfiguredAcpSessionKey;
    if bindings == [] {
    } else {
      var b := bindings[0];
      assert b in bindings && Keyed(hash, key, offer, keyed, b);
      var o := offer(b);
      if !Offers(offer, b, 2) {
        var next := if o.None? || wild.Some? then wild else Some(o.value.1);
        var keyedNext := if keyed(b).None? || keyedWild.Some? then keyedWild else Some(keyed(b).value.1);
        KeyedBest(hash, key, bindings[1..], offer, keyed, next, keyedNext, s);
      }
    }
  }

  lemma PriorityChannel(cfg: Config, hash: string -> string, channel: Channel, account: string, select: Selector,
      s: Spec)
    requires Best(cfg.bindings, ConversationOffers(cfg, channel, account, select), None) == Some(s)
    ensures s.channel == channel && s.accountId == NormalizeAccountId(account)
    ensures exists b ::
      b in cfg.bindings && select(b).Some? && select(b).value == (s.conversationId, s.parentConversationId)
  {
    hide NormalizeAccountId, NormalizeBindingChannel, ResolveAccountMatchPriority, NormalizeText, NormalizeMode;
    var offers := ConversationOffers(cfg, channel, account, select);
    BestIsOffered(cfg.bindings, offers, None);
    var b :| b in cfg.bindings && offers(b).Some? && offers(b).value.1 == s;
    assert offers(b) == ConversationOffer(cfg, channel, account, select, b);
  }

  /** A selector that picks exactly the bindings of the spec's conversation. */
  ghost predicate Selects(channel: Channel, select: Selector, s: Spec, b: Binding) {
    var bound := BoundConversation(channel, b);
    select(b) == if bound.Some? && bound.value.0 == s.conversationId then bound else None
  }

  /** What one search returns for a conversation, the other returns for the key of that result. */
  lemma {:induction false} SearchRoundTrip(hash: string -> string, cfg: Config, channel: Channel, account: string,
      select: Selector, s: Spec)
    requires HexHash(hash) && SafeId(account) && NormalizeAccountId(account) == account
    requires Best(cfg.bindings, ConversationOffers(cfg, channel, account, select), None) == Some(s)
    requires NoClash(hash, cfg, s) && forall b :: b in cfg.bindings ==> Selects(channel, select, s, b)
    ensures SpecBySessionKey(hash, cfg, BuildConfiguredAcpSessionKey(hash, s)) == Some(s)
  {
    hide NormalizeAccountId, NormalizeBindingChannel, ResolveAccountMatchPriority, BuildConfiguredAcpSessionKey,
      ParseConfiguredBindingSessionKey,
         Trim, SafeId, HexHash, BoundConversation, Identity;
    var key := BuildConfiguredAcpSessionKey(hash, s);
    PriorityChannel(cfg, hash, channel, account, select, s);
    KeyParses(hash, s);
    var offers, keyed := ConversationOffers(cfg, channel, account, select), KeyOffers(hash, cfg, key, channel, account);
    forall b | b in cfg.bindings ensures Keyed(hash, key, offers, keyed, b) {
      OfferKeyed(hash, cfg, channel, account, select, s, b);
    }
    KeyedBest(hash, key, cfg.bindings, offers, keyed, None, None, s);
  }

  lemma OfferKeyed(hash: string -> string, cfg: Config, channel: Channel, account: string, select: Selector, s: Spec,
      b: Binding)
    requires HexHash(hash) && SafeId(account) && NormalizeAccountId(account) == account
    requires s.channel == channel && s.accountId == account && b in cfg.bindings
    requires NoClash(hash, cfg, s) && Selects(channel, select, s, b)
    ensures var key := BuildConfiguredAcpSessionKey(hash, s);
      Keyed(hash, key, ConversationOffers(cfg, channel, account, select), KeyOffers(hash, cfg, key, channel, account),
        b)
  {
    hide NormalizeAccountId, NormalizeBindingChannel, ResolveAccountMatchPriority, BuildConfiguredAcpSessionKey, SafeId,
      HexHash, BoundConversation,
         NormalizeText, NormalizeMode;
    var key := BuildConfiguredAcpSessionKey(hash, s);
    var bound := BoundConversation(channel, b);
    if bound.Some? {
      var spec := ToConfiguredBindingSpec(cfg, channel, account, bound.value.0, bound.value.1, b);
      if BuildConfiguredAcpSessionKey(hash, spec) == key {
        KeyDetermines(hash, spec, s);
        var other := s.(conversationId := bound.value.0);
        assert Identity(spec) == Identity(other);
      }
    }
  }

  // ------------------------------------------------------------------ the round trip

  lemma DiscordSelects(target: string, s: Spec, b: Binding)
    requires s.conversationId == target
    ensures Selects(Discord, SelectDiscord(target), s, b)
  {
    hide NormalizeText;
  }

  lemma TopicSelects(wanted: Topic, conversationId: string, parent: Option<string>, s: Spec, b: Binding)
    requires ParseTelegramTopicConversation(conversationId, parent) == Some(wanted) &&
      s.conversationId == wanted.canonicalConversationId
    ensures Selects(Telegram, SelectTopic(wanted), s, b)
  {
    hide ParseTelegramTopicConversation, NormalizeText, SignedDigits, Digits;
    TopicParts(wanted, conversationId, parent);
    var id := ResolveBindingConversationId(b);
    if id.Some? && ParseTelegramTopicConversation(id.value, None).Some? {
      var topic := ParseTelegramTopicConversation(id.value, None).value;
      TopicParts(topic, id.value, None);
      if topic.canonicalConversationId == wanted.canonicalConversationId {
        CanonicalDetermines(topic, wanted);
      }
    }
  }

  lemma DiscordRoundTrip(hash: string -> string, cfg: Config, account: string, target: string, s: Spec)
    requires HexHash(hash) && SafeId(account) && NormalizeAccountId(account) == account
    requires SpecByDiscord(cfg, account, target) == Some(s) && NoClash(hash, cfg, s)
    ensures SpecBySessionKey(hash, cfg, BuildConfiguredAcpSessionKey(hash, s)) == Some(s)
  {
    hide NormalizeAccountId, BuildConfiguredAcpSessionKey, SafeId, HexHash, NoClash, SpecBySessionKey,
      ConversationOffers, Best, BoundConversation;
    PriorityChannel(cfg, hash, Discord, account, SelectDiscord(target), s);
    forall b ensures Selects(Discord, SelectDiscord(target), s, b) {
      DiscordSelects(target, s, b);
    }
    SearchRoundTrip(hash, cfg, Discord, account, SelectDiscord(target), s);
  }

  lemma TelegramRoundTrip(hash: string -> string, cfg: Config, account: string, wanted: Topic, conversationId: string,
      parent: Option<string>, s: Spec)
    requires HexHash(hash) && SafeId(account) && NormalizeAccountId(account) == account
    requires ParseTelegramTopicConversation(conversationId, parent) == Some(wanted)
    requires Best(cfg.bindings, ConversationOffers(cfg, Telegram, account, SelectTopic(wanted)), None) == Some(s) &&
      NoClash(hash, cfg, s)
    ensures SpecBySessionKey(hash, cfg, BuildConfiguredAcpSessionKey(hash, s)) == Some(s)
  {
    hide NormalizeAccountId, BuildConfiguredAcpSessionKey, SafeId, HexHash, NoClash, SpecBySessionKey,
      ConversationOffers, Best,
         BoundConversation, ParseTelegramTopicConversation;
    PriorityChannel(cfg, hash, Telegram, account, SelectTopic(wanted), s);
    forall b ensures Selects(Telegram, SelectTopic(wanted), s, b) {
      TopicSelects(wanted, conversationId, parent, s, b);
    }
    SearchRoundTrip(hash, cfg, Telegram, account, SelectTopic(wanted), s);
  }

  /** Whatever binding a conversation resolves to, the session key of its record resolves to the same spec: for every
      list of exact and wildcard bindings, for inherited discord conversations and for telegram topics.  The account's
      normalised id has to be one that normalising keeps. */
  lemma {:induction false} KeyRoundTrip(hash: string -> string, cfg: Config, channel: string, accountId: string,
      conversationId: string, parent: Option<string>)
    requires HexHash(hash) && NormalizeAccountId(NormalizeAccountId(accountId)) == NormalizeAccountId(accountId)
    requires var found := SpecByConversation(cfg, channel, accountId, conversationId, parent);
      found.Some? && NoClash(hash, cfg, found.value)
    ensures var found := SpecByConversation(cfg, channel, accountId, conversationId, parent);
      SpecBySessionKey(hash, cfg, ToConfiguredAcpBindingRecord(hash, found.value).targetSessionKey) == found
  {
    hide NormalizeAccountId, BuildConfiguredAcpSessionKey, SafeId, HexHash, NoClash, SpecBySessionKey,
      ConversationOffers, Best,
         ParseTelegramTopicConversation, Trim, ToLower, SpecByDiscord, SelectTopic, NormalizeText;
    var s := SpecByConversation(cfg, channel, accountId, conversationId, parent).value;
    var account, conversation, parentId := NormalizeAccountId(accountId), Trim(conversationId), NormalizeText(parent);
    AccountSafe(accountId);
    if ToLower(Trim(channel)) == "discord" {
      var target := if SpecByDiscord(cfg, account, conversation).Some? then conversation else parentId.value;
      DiscordRoundTrip(hash, cfg, account, target, s);
    } else {
      var topic := ParseTelegramTopicConversation(conversation, parentId).value;
      TelegramRoundTrip(hash, cfg, account, topic, conversation, parentId, s);
    }
  }

  /** For an account id that normalising does not keep there is a configuration whose record cannot be found by its
      key. */
  lemma {:induction false} UnstableAccountBreaks(hash: string -> string, accountId: string)
    requires HexHash(hash) && NormalizeAccountId(NormalizeAccountId(accountId)) != NormalizeAccountId(accountId)
    ensures var b := Binding(Some("discord"), Some(accountId), Some("1"), None, Settings(None, None, None, None, None));
      var cfg := Config([b], id => id, _ => Settings(None, None, None, None, None));
      var found := SpecByConversation(cfg, "discord", accountId, "1", None);
      found.Some? && SpecBySessionKey(hash, cfg, ToConfiguredAcpBindingRecord(hash, found.value).targetSessionKey) ==
        None
  {
    var b := Binding(Some("discord"), Some(accountId), Some("1"), None, Settings(None, None, None, None, None));
    var cfg := Config([b], id => id, _ => Settings(None, None, None, None, None));
    hide NormalizeAccountId, SanitizeAgentId, HexHash, SafeId, ToLower, Trim, Join, ParseConfiguredBindingSessionKey,
      BuildConfiguredAcpSessionKey, Token;
    var once := NormalizeAccountId(accountId);
    var twice := NormalizeAccountId(once);
    UnstableShape(accountId);
    PlainTokens();
    TokenPlain("discord");
    TokenPlain("1");
    var spec := ToConfiguredBindingSpec(cfg, Discord, once, "1", None, b);
    OnlyBinding(cfg, b, once, spec);
    assert SpecByConversation(cfg, "discord", accountId, "1", None) == Some(spec);
    AccountSafe(once);
    KeyParses(hash, spec);
    NoBinding(hash, cfg, b, BuildConfiguredAcpSessionKey(hash, spec), twice);
  }

  lemma OnlyBinding(cfg: Config, b: Binding, account: string, spec: Spec)
    requires cfg.bindings == [b] && b.channel == Some("discord") && ResolveBindingConversationId(b) == Some("1")
    requires NormalizeBindingChannel(b.channel) == Some(Discord) &&
      ResolveAccountMatchPriority(b.accountId, account) == 2
    requires spec == ToConfiguredBindingSpec(cfg, Discord, account, "1", None, b)
    ensures SpecByDiscord(cfg, account, "1") == Some(spec)
  {
    hide NormalizeAccountId, NormalizeBindingChannel, ResolveAccountMatchPriority, ToConfiguredBindingSpec,
      ResolveBindingConversationId;
    var offers := ConversationOffers(cfg, Discord, account, SelectDiscord("1"));
    assert offers(b) == ConversationOffer(cfg, Discord, account, SelectDiscord("1"), b) == Some((2, spec));
  }

  lemma NoBinding(hash: string -> string, cfg: Config, b: Binding, key: string, account: string)
    requires cfg.bindings == [b] && ResolveAccountMatchPriority(b.accountId, account) == 0
    ensures Best(cfg.bindings, KeyOffers(hash, cfg, key, Discord, account), None) == None
  {
    hide NormalizeAccountId, NormalizeBindingChannel, ResolveAccountMatchPriority, ToConfiguredBindingSpec,
      BoundConversation;
    var offers := KeyOffers(hash, cfg, key, Discord, account);
    assert offers(b) == KeyOffer(hash, cfg, key, Discord, account, b) == None;
    assert cfg.bindings[1..] == [];
  }

  /** An id that normalising changes is neither the default nor the wildcard, and is stable from then on. */
  lemma UnstableShape(accountId: string)
    requires NormalizeAccountId(NormalizeAccountId(accountId)) != NormalizeAccountId(accountId)
    ensures var twice := NormalizeAccountId(NormalizeAccountId(accountId));
      Trim(accountId) != "" && Trim(accountId) != "*" &&
        NormalizeAccountId(Trim(accountId)) == NormalizeAccountId(accountId) &&
      NormalizeAccountId(twice) == twice
  {
    var id := NormalizeAccountId(accountId);
    hide Canonicalize, Trim, BlockedObjectKey, StripTrailingDashes;
    AccountSafe(accountId);
    NormalizeTwice(accountId);
    TrimIdempotent(accountId);
    if Trim(accountId) == "*" {
      StarIsDefault(accountId);
    }
    SafeTrimmed(id);
    CanonicalAgain(id);
    StrippedEnd(id);
    AccountSafe(id);
    NormalizeTwice(id);
    assert DEFAULT_ACCOUNT_ID[0] == 'd';
  }

  lemma StrippedEnd(s: string)
    ensures var r := StripTrailingDashes(s); r != "" ==> r[|r| - 1] != '-'
  {}

  lemma StarIsDefault(accountId: string)
    requires Trim(accountId) == "*"
    ensures NormalizeAccountId(accountId)[0] != '_'
  {
    assert ToLower("*") == "*" by { assert "*"[1..] == ""; }
    assert CollapseInvalid("*", false) == "-" by { assert "*"[1..] == ""; }
    assert StripLeadingDashes("-") == "" by { assert "-"[1..] == ""; }
    assert Canonicalize("*") == "";
  }
}
