/** The `interactionCreate` handler: dispatch on the command name, one
    fetch, and exactly one reply, either an error text or one card. */
module Bot {
  import opened Wrappers
  import opened ClashApi
  import opened Embeds

  /** An incoming interaction. Only slash commands carry a name and the
      required `tag` option; every other interaction is alike to the bot. */
  datatype Interaction =
    | ChatCommand(commandName: string, tag: string, user: User)
    | OtherInteraction

  /** What `interaction.reply` is given: a plain string, or `{ embeds }`. */
  datatype Reply = Text(content: string) | EmbedReply(embeds: seq<Embed>)

  /** A recognised command: which kind to look up, for which raw tag. */
  datatype Lookup = Lookup(kind: Kind, tag: string)

  function CommandName(kind: Kind): string {
    match kind
    case Clan => "clan"
    case Player => "player"
  }

  /** The command branches: `clan` and `player` look something up; anything
      else, and any interaction that is not a command, is ignored. */
  function Dispatch(i: Interaction): (r: Option<Lookup>)
    ensures r.Some? <==> i.ChatCommand? && i.commandName in {"clan", "player"}
    ensures r.Some? ==> CommandName(r.value.kind) == i.commandName && r.value.tag == i.tag
  {
    if i.OtherInteraction? then None
    else if i.commandName == "clan" then Some(Lookup(Clan, i.tag))
    else if i.commandName == "player" then Some(Lookup(Player, i.tag))
    else None
  }

  const ErrorPrefix: string := "Error: Could not fetch "
  const ErrorMiddle: string := " data for tag "

  /** The reply when the fetch returned nothing; `tag` is as the user typed it. */
  function ErrorText(kind: Kind, tag: string): string {
    ErrorPrefix + CommandName(kind) + ErrorMiddle + tag + "."
  }

  /** Reads the kind and the tag back out of an error text. */
  function ParseErrorText(s: string): Option<(Kind, string)> {
    match StripPrefix(s, ErrorPrefix)
    case None => None
    case Some(rest) =>
      match StripSuffix(rest, ".")
      case None => None
      case Some(mid) =>
        match StripPrefix(mid, "clan" + ErrorMiddle)
        case Some(tag) => Some((Clan, tag))
        case None =>
          match StripPrefix(mid, "player" + ErrorMiddle)
          case Some(tag) => Some((Player, tag))
          case None => None
  }

  /** The clan branch once the fetch is done. */
  function ClanReply(tag: string, fetched: Option<ClanRecord>, requester: User, now: int): Reply {
    match fetched
    case None => Text(ErrorText(Clan, tag))
    case Some(r) => EmbedReply([ClanEmbed(r, requester, now)])
  }

  /** The player branch once the fetch is done. */
  function PlayerReply(tag: string, fetched: Option<PlayerRecord>, requester: User, now: int): Reply {
    match fetched
    case None => Text(ErrorText(Player, tag))
    case Some(r) => EmbedReply([PlayerEmbed(r, requester, now)])
  }

  /** A reply is exactly one thing: an error text, or one card. */
  predicate SingleReply(r: Reply) {
    r.Text? || |r.embeds| == 1
  }

  /** The whole handler: `None` is "no reply sent". */
  function Handle(i: Interaction, remote: Remote, now: int): (r: Option<Reply>)
    ensures r.Some? <==> i.ChatCommand? && i.commandName in {"clan", "player"}
    ensures r.Some? ==> SingleReply(r.value)
  {
    match Dispatch(i)
    case None => None
    case Some(Lookup(Clan, tag)) => Some(ClanReply(tag, FetchClanData(remote, tag), i.user, now))
    case Some(Lookup(Player, tag)) => Some(PlayerReply(tag, FetchPlayerData(remote, tag), i.user, now))
  }

  /** The URLs the handler fetches for an interaction: none for an ignored
      one, the one request URL of its kind and tag otherwise. */
  function Requests(i: Interaction): set<string> {
    match Dispatch(i)
    case None => {}
    case Some(Lookup(kind, tag)) => {RequestUrl(kind, tag)}
  }

  /** Two remote states answer `url` alike. */
  predicate AgreeAt(r1: Remote, r2: Remote, url: string) {
    && (url in r1.clans <==> url in r2.clans)
    && (url in r1.clans ==> r1.clans[url] == r2.clans[url])
    && (url in r1.players <==> url in r2.players)
    && (url in r1.players ==> r1.players[url] == r2.players[url])
  }

  /** The reply depends on the remote state only through the URLs in
      `Requests`; so an ignored interaction, which requests nothing, gets the
      same (absent) reply from every remote state: it fetches nothing. */
  lemma HandleReadsOnlyRequests(i: Interaction, r1: Remote, r2: Remote, now: int)
    requires forall url :: url in Requests(i) ==> AgreeAt(r1, r2, url)
    ensures Handle(i, r1, now) == Handle(i, r2, now)
  {
    match Dispatch(i)
    case None =>
    case Some(Lookup(kind, tag)) =>
      assert RequestUrl(kind, tag) in Requests(i);
  }

  /** Interactions that are not commands, and commands other than `clan`
      and `player`, get no reply and request nothing. */
  lemma IgnoredInteraction(i: Interaction, remote: Remote, now: int)
    requires i.OtherInteraction? || i.commandName !in {"clan", "player"}
    ensures Handle(i, remote, now) == None && Requests(i) == {}
  {
  }

  /** A recognised command fetches exactly one URL, built from its own kind
      and the user's tag. */
  lemma RecognisedCommandRequest(kind: Kind, tag: string, user: User)
    ensures Requests(ChatCommand(CommandName(kind), tag, user)) == {RequestUrl(kind, tag)}
  {
  }

  /** The error text names the kind and the raw tag, and both can be read
      back out of it. */
  lemma ParseErrorTextOf(kind: Kind, tag: string)
    ensures ParseErrorText(ErrorText(kind, tag)) == Some((kind, tag))
  {
    var s := ErrorText(kind, tag);
    var rest := CommandName(kind) + ErrorMiddle + tag;
    assert s == ErrorPrefix + (rest + ".");
    assert s[|ErrorPrefix|..] == rest + ".";
    assert (rest + ".")[..|rest|] == rest;
    assert rest[|CommandName(kind) + ErrorMiddle|..] == tag;
    if kind == Player {
      assert rest[0] == 'p';
      assert ("clan" + ErrorMiddle)[0] == 'c';
    }
  }

  /** When the fetch yields nothing the reply is the error text alone,
      naming the user's raw tag; when it yields a record there is no error
      text. */
  lemma FetchFailureReply(i: Interaction, remote: Remote, now: int)
    requires i.ChatCommand? && i.commandName in {"clan", "player"}
    ensures var kind := if i.commandName == "clan" then Clan else Player;
      var reply := Handle(i, remote, now).value;
      var fetched := if kind == Clan then RequestUrl(kind, i.tag) in remote.clans
                     else RequestUrl(kind, i.tag) in remote.players;
      && (reply.Text? <==> !fetched)
      && (reply.Text? ==>
            reply.content == "Error: Could not fetch " + i.commandName + " data for tag " + i.tag + "."
            && ParseErrorText(reply.content) == Some((kind, i.tag)))
  {
    var kind := if i.commandName == "clan" then Clan else Player;
    ParseErrorTextOf(kind, i.tag);
  }

  /** When the clan fetch yields a record, the reply is one clan card built
      from that record: title from the record's own name and tag, and every
      statistic of the record readable from it. */
  lemma ClanCardReply(i: Interaction, remote: Remote, now: int)
    requires i.ChatCommand? && i.commandName == "clan"
    requires RequestUrl(Clan, i.tag) in remote.clans
    ensures var r := remote.clans[RequestUrl(Clan, i.tag)];
      && Handle(i, remote, now) == Some(EmbedReply([ClanEmbed(r, i.user, now)]))
      && ClanEmbed(r, i.user, now).title == r.name + " (" + r.tag + ")"
      && ReadClanStats(ClanEmbed(r, i.user, now))
           == Some(ClanStats(r.clanLevel, r.members, r.clanPoints, r.warWins))
  {
    var r := remote.clans[RequestUrl(Clan, i.tag)];
    ClanEmbedStats(r, i.user, now);
  }

  /** When the player fetch yields a record, the reply is one player card
      built from that record. */
  lemma PlayerCardReply(i: Interaction, remote: Remote, now: int)
    requires i.ChatCommand? && i.commandName == "player"
    requires RequestUrl(Player, i.tag) in remote.players
    ensures var r := remote.players[RequestUrl(Player, i.tag)];
      && Handle(i, remote, now) == Some(EmbedReply([PlayerEmbed(r, i.user, now)]))
      && PlayerEmbed(r, i.user, now).title == r.name + " (" + r.tag + ")"
      && ReadPlayerStats(PlayerEmbed(r, i.user, now))
           == Some(PlayerStats(r.townHallLevel, r.expLevel, r.trophies, r.bestTrophies,
                               r.warStars, r.attackWins, r.defenseWins))
  {
    var r := remote.players[RequestUrl(Player, i.tag)];
    PlayerEmbedStats(r, i.user, now);
  }

  /** The same reply with every card's timestamp set to `t`. */
  function Retimed(r: Option<Reply>, t: int): Option<Reply> {
    match r
    case Some(EmbedReply(es)) => Some(EmbedReply(seq(|es|, k requires 0 <= k < |es| => es[k].(timestamp := t))))
    case _ => r
  }

  /** Two identical invocations against the same remote state differ at
      most in the cards' timestamps. */
  lemma HandleDependsOnClockOnlyInTimestamp(i: Interaction, remote: Remote, t1: int, t2: int)
    ensures Handle(i, remote, t2) == Retimed(Handle(i, remote, t1), t2)
  {
    match Handle(i, remote, t1)
    case Some(EmbedReply(es)) =>
      assert Retimed(Handle(i, remote, t1), t2).value.embeds == [es[0].(timestamp := t2)];
    case _ =>
  }
}
