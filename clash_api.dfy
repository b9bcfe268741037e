/** The Clash of Clans API as the bot sees it: the records it decodes, the
    request URLs `fetchClanData` and `fetchPlayerData` build, and the remote
    state those requests read. */
module ClashApi {
  import opened Wrappers
  import UriComponent

  /** The two kinds of entity the bot looks up, one per slash command. */
  datatype Kind = Clan | Player

  datatype BadgeUrls = BadgeUrls(medium: string)

  /** The fields of a clan response the bot reads. */
  datatype ClanRecord = ClanRecord(
    name: string,
    tag: string,
    description: Option<string>,
    badgeUrls: BadgeUrls,
    clanLevel: int,
    members: int,
    clanPoints: int,
    warWins: int)

  /** The fields of a player response the bot reads. */
  datatype PlayerRecord = PlayerRecord(
    name: string,
    tag: string,
    townHallLevel: int,
    expLevel: int,
    trophies: int,
    bestTrophies: int,
    warStars: int,
    attackWins: int,
    defenseWins: int)

  /** What the API would answer to each request URL at the time of the call.
      An absent URL stands for what the fetch functions' `catch` turns into
      `null` (a transport error, a non-2xx status), and for a falsy body
      (`null` or the empty string). A 2xx body that is not a record of this
      shape is not modelled. */
  datatype Remote = Remote(clans: map<string, ClanRecord>, players: map<string, PlayerRecord>)

  const BaseUrl: string := "https://cocproxy.royaleapi.dev/v1"

  function Collection(kind: Kind): string {
    match kind
    case Clan => "/clans/"
    case Player => "/players/"
  }

  function Prefix(kind: Kind): string {
    BaseUrl + Collection(kind)
  }

  /** The URL requested for `tag`: the base, the collection, and the tag
      percent-encoded. */
  function RequestUrl(kind: Kind, tag: string): string {
    Prefix(kind) + UriComponent.Encode(tag)
  }

  lemma Segment(p: string, tag: string)
    ensures var url := p + UriComponent.Encode(tag);
      && url[..|p|] == p
      && url[|p|..] == UriComponent.Encode(tag)
      && forall i :: |p| <= i < |url| ==> !UriComponent.Delimiter(url[i])
  {
    UriComponent.EncodeHasNoDelimiters(tag);
  }

  /** The request URL starts with the base and the collection of its kind,
      and the encoded tag after them is one path segment: it holds no `/`,
      no `?` and no `#`. */
  lemma RequestUrlShape(kind: Kind, tag: string)
    ensures var url := RequestUrl(kind, tag);
      && |url| >= |Prefix(kind)|
      && url[..|Prefix(kind)|] == Prefix(kind)
      && url[|Prefix(kind)|..] == UriComponent.Encode(tag)
      && forall i :: |Prefix(kind)| <= i < |url| ==> !UriComponent.Delimiter(url[i])
  {
    Segment(Prefix(kind), tag);
  }

  /** Reads the kind and the raw tag back out of a request URL. */
  function ParseRequestUrl(url: string): Option<(Kind, string)> {
    if |url| >= |Prefix(Clan)| && url[..|Prefix(Clan)|] == Prefix(Clan) then
      match UriComponent.Decode(url[|Prefix(Clan)|..])
      case Some(tag) => Some((Clan, tag))
      case None => None
    else if |url| >= |Prefix(Player)| && url[..|Prefix(Player)|] == Prefix(Player) then
      match UriComponent.Decode(url[|Prefix(Player)|..])
      case Some(tag) => Some((Player, tag))
      case None => None
    else None
  }

  /** `fetchClanData(tag)` / `fetchPlayerData(tag)` at the level of the kind. */
  function FetchClanData(remote: Remote, tag: string): Option<ClanRecord> {
    var url := RequestUrl(Clan, tag);
    if url in remote.clans then Some(remote.clans[url]) else None
  }

  function FetchPlayerData(remote: Remote, tag: string): Option<PlayerRecord> {
    var url := RequestUrl(Player, tag);
    if url in remote.players then Some(remote.players[url]) else None
  }

  /** A request URL names its kind and the user's tag unambiguously. */
  lemma ParseRequestUrlOfRequestUrl(kind: Kind, tag: string)
    ensures ParseRequestUrl(RequestUrl(kind, tag)) == Some((kind, tag))
  {
    var url := RequestUrl(kind, tag);
    RequestUrlShape(kind, tag);
    UriComponent.DecodeEncode(tag);
    if kind == Player {
      PlayerPrefixIsNotClan(url);
    }
  }

  lemma PlayerPrefixIsNotClan(url: string)
    requires |url| >= |Prefix(Player)| && url[..|Prefix(Player)|] == Prefix(Player)
    ensures url[..|Prefix(Clan)|] != Prefix(Clan)
  {
    var n := |BaseUrl| + 1;
    assert url[n] == Prefix(Player)[n] == 'p';
    assert Prefix(Clan)[n] == 'c';
  }

  /** Distinct commands or distinct tags never share a request URL. */
  lemma RequestUrlInjective(k1: Kind, t1: string, k2: Kind, t2: string)
    ensures RequestUrl(k1, t1) == RequestUrl(k2, t2) <==> k1 == k2 && t1 == t2
  {
    ParseRequestUrlOfRequestUrl(k1, t1);
    ParseRequestUrlOfRequestUrl(k2, t2);
  }

  /** The example tag from the command registration. The tag is a parameter
      pinned by `requires` so that Dafny does not unroll `Encode` on the literal. */
  lemma ClanUrlOfExampleTag(tag: string)
    requires tag == "#2P0LYQ09V"
    ensures RequestUrl(Clan, tag) == "https://cocproxy.royaleapi.dev/v1/clans/%232P0LYQ09V"
  {
    UriComponent.EncodeExampleTag(tag);
  }
}
