/** The display cards (`EmbedBuilder` values) the bot sends: one template
    for a clan, one for a player. */
module Embeds {
  import opened Wrappers
  import opened Decimal
  import opened ClashApi

  /** The user who ran the command: the tag the footer names and the avatar
      it shows (`avatarURL()` returns null for a user without one). */
  datatype User = User(tag: string, avatarUrl: Option<string>)

  datatype Field = Field(name: string, value: string, inline: bool)

  datatype Footer = Footer(text: string, iconUrl: Option<string>)

  /** A built embed. `timestamp` is the moment `setTimestamp()` read the
      clock, passed in by the caller. */
  datatype Embed = Embed(
    color: string,
    title: string,
    description: string,
    thumbnail: Option<string>,
    fields: seq<Field>,
    timestamp: int,
    footer: Footer)

  const ClanColor: string := "#0099ff"
  const PlayerColor: string := "#00ff99"
  const NoDescription: string := "No description available"
  const MembersSuffix: string := "/50"
  const TownHallPrefix: string := "Town Hall Level: "
  const FooterPrefix: string := "Requested by "

  const ClanFieldNames: seq<string> := ["Clan Level", "Members", "Clan Points", "War Wins"]
  const PlayerFieldNames: seq<string> :=
    ["Experience Level", "Trophies", "Best Trophies", "War Stars", "Attack Wins", "Defense Wins"]

  function Title(name: string, tag: string): string {
    name + " (" + tag + ")"
  }

  function RequestedBy(requester: User): Footer {
    Footer(FooterPrefix + requester.tag, requester.avatarUrl)
  }

  /** An inline field showing a number as `${n}` does. */
  function StatField(name: string, n: int): Field {
    Field(name, IntToString(n), true)
  }

  /** JavaScript's `value || fallback` where `value` is a string that may be
      absent: both an absent value and the empty string are falsy. */
  function OrElse(value: Option<string>, fallback: string): string {
    match value
    case Some(s) => if s != "" then s else fallback
    case None => fallback
  }

  function ClanEmbed(r: ClanRecord, requester: User, now: int): Embed {
    Embed(
      ClanColor,
      Title(r.name, r.tag),
      OrElse(r.description, NoDescription),
      Some(r.badgeUrls.medium),
      [ StatField("Clan Level", r.clanLevel),
        Field("Members", IntToString(r.members) + MembersSuffix, true),
        StatField("Clan Points", r.clanPoints),
        StatField("War Wins", r.warWins) ],
      now,
      RequestedBy(requester))
  }

  function PlayerEmbed(r: PlayerRecord, requester: User, now: int): Embed {
    Embed(
      PlayerColor,
      Title(r.name, r.tag),
      TownHallPrefix + IntToString(r.townHallLevel),
      None,
      [ StatField("Experience Level", r.expLevel),
        StatField("Trophies", r.trophies),
        StatField("Best Trophies", r.bestTrophies),
        StatField("War Stars", r.warStars),
        StatField("Attack Wins", r.attackWins),
        StatField("Defense Wins", r.defenseWins) ],
      now,
      RequestedBy(requester))
  }

  function FieldNames(fields: seq<Field>): seq<string> {
    seq(|fields|, i requires 0 <= i < |fields| => fields[i].name)
  }

  predicate AllInline(fields: seq<Field>) {
    forall i :: 0 <= i < |fields| ==> fields[i].inline
  }

  // Reading the numbers back off a card

  function StripPrefix(s: string, prefix: string): Option<string> {
    if |prefix| <= |s| && s[..|prefix|] == prefix then Some(s[|prefix|..]) else None
  }

  function StripSuffix(s: string, suffix: string): Option<string> {
    if |suffix| <= |s| && s[|s| - |suffix|..] == suffix then Some(s[..|s| - |suffix|]) else None
  }

  function ReadMembers(value: string): Option<int> {
    match StripSuffix(value, MembersSuffix)
    case Some(n) => ParseInt(n)
    case None => None
  }

  function ReadTownHall(description: string): Option<int> {
    match StripPrefix(description, TownHallPrefix)
    case Some(n) => ParseInt(n)
    case None => None
  }

  datatype ClanStats = ClanStats(clanLevel: int, members: int, clanPoints: int, warWins: int)

  datatype PlayerStats = PlayerStats(
    townHallLevel: int, expLevel: int, trophies: int, bestTrophies: int,
    warStars: int, attackWins: int, defenseWins: int)

  /** The clan statistics a reader of the card sees, if it has the clan layout. */
  function ReadClanStats(e: Embed): Option<ClanStats> {
    if |e.fields| != 4 then None
    else
      match (ParseInt(e.fields[0].value), ReadMembers(e.fields[1].value),
             ParseInt(e.fields[2].value), ParseInt(e.fields[3].value))
      case (Some(level), Some(members), Some(points), Some(wins)) =>
        Some(ClanStats(level, members, points, wins))
      case _ => None
  }

  /** The player statistics a reader of the card sees, if it has the player layout. */
  function ReadPlayerStats(e: Embed): Option<PlayerStats> {
    if |e.fields| != 6 then None
    else
      match (ReadTownHall(e.description),
             ParseInt(e.fields[0].value), ParseInt(e.fields[1].value), ParseInt(e.fields[2].value),
             ParseInt(e.fields[3].value), ParseInt(e.fields[4].value), ParseInt(e.fields[5].value))
      case (Some(th), Some(exp), Some(trophies), Some(best), Some(stars), Some(attacks), Some(defenses)) =>
        Some(PlayerStats(th, exp, trophies, best, stars, attacks, defenses))
      case _ => None
  }

  lemma ReadMembersOf(n: int)
    ensures ReadMembers(IntToString(n) + MembersSuffix) == Some(n)
  {
    var v := IntToString(n) + MembersSuffix;
    assert v[..|v| - |MembersSuffix|] == IntToString(n);
    ParseIntToString(n);
  }

  lemma ReadTownHallOf(n: int)
    ensures ReadTownHall(TownHallPrefix + IntToString(n)) == Some(n)
  {
    var d := TownHallPrefix + IntToString(n);
    assert d[|TownHallPrefix|..] == IntToString(n);
    ParseIntToString(n);
  }

  lemma MembersOfRead(value: string, n: int)
    requires ReadMembers(value) == Some(n)
    ensures value == IntToString(n) + MembersSuffix
  {
    var k := |value| - |MembersSuffix|;
    IntToStringOfParseInt(value[..k], n);
    assert value == value[..k] + value[k..];
  }

  lemma TownHallOfRead(description: string, n: int)
    requires ReadTownHall(description) == Some(n)
    ensures description == TownHallPrefix + IntToString(n)
  {
    var k := |TownHallPrefix|;
    IntToStringOfParseInt(description[k..], n);
    assert description == description[..k] + description[k..];
  }

  /** Whatever a reader recovers from a card with the clan layout fixes the
      field texts exactly: `${clanLevel}`, `${members}/50`, `${clanPoints}`,
      `${warWins}`. With `ClanEmbedStats` this pins the fields of `ClanEmbed`. */
  lemma ClanStatsFixFieldText(e: Embed, st: ClanStats)
    requires ReadClanStats(e) == Some(st)
    ensures |e.fields| == 4
    ensures e.fields[0].value == IntToString(st.clanLevel)
    ensures e.fields[1].value == IntToString(st.members) + "/50"
    ensures e.fields[2].value == IntToString(st.clanPoints)
    ensures e.fields[3].value == IntToString(st.warWins)
  {
    IntToStringOfParseInt(e.fields[0].value, st.clanLevel);
    MembersOfRead(e.fields[1].value, st.members);
    IntToStringOfParseInt(e.fields[2].value, st.clanPoints);
    IntToStringOfParseInt(e.fields[3].value, st.warWins);
  }

  /** The same for the player layout: the description is exactly
      `Town Hall Level: ${townHallLevel}` and each field is `${n}`. */
  lemma PlayerStatsFixFieldText(e: Embed, st: PlayerStats)
    requires ReadPlayerStats(e) == Some(st)
    ensures |e.fields| == 6
    ensures e.description == "Town Hall Level: " + IntToString(st.townHallLevel)
    ensures e.fields[0].value == IntToString(st.expLevel)
    ensures e.fields[1].value == IntToString(st.trophies)
    ensures e.fields[2].value == IntToString(st.bestTrophies)
    ensures e.fields[3].value == IntToString(st.warStars)
    ensures e.fields[4].value == IntToString(st.attackWins)
    ensures e.fields[5].value == IntToString(st.defenseWins)
  {
    TownHallOfRead(e.description, st.townHallLevel);
    IntToStringOfParseInt(e.fields[0].value, st.expLevel);
    IntToStringOfParseInt(e.fields[1].value, st.trophies);
    IntToStringOfParseInt(e.fields[2].value, st.bestTrophies);
    IntToStringOfParseInt(e.fields[3].value, st.warStars);
    IntToStringOfParseInt(e.fields[4].value, st.attackWins);
    IntToStringOfParseInt(e.fields[5].value, st.defenseWins);
  }

  /** The clan card's fixed parts: its colour, the badge as thumbnail, the
      title from the record's own name and tag, four inline fields in their
      fixed order, and the requester in the footer. */
  lemma ClanEmbedLayout(r: ClanRecord, requester: User, now: int)
    ensures var e := ClanEmbed(r, requester, now);
      && e.color == ClanColor
      && e.title == r.name + " (" + r.tag + ")"
      && e.thumbnail == Some(r.badgeUrls.medium)
      && FieldNames(e.fields) == ClanFieldNames
      && AllInline(e.fields)
      && e.footer == Footer("Requested by " + requester.tag, requester.avatarUrl)
      && e.timestamp == now
  {
    var e := ClanEmbed(r, requester, now);
    assert FieldNames(e.fields) == ClanFieldNames by {
      assert forall i :: 0 <= i < 4 ==> FieldNames(e.fields)[i] == ClanFieldNames[i];
    }
  }

  /** The clan description follows `description || 'No description available'`. */
  lemma ClanEmbedDescription(r: ClanRecord, requester: User, now: int)
    ensures var d := ClanEmbed(r, requester, now).description;
      && (r.description.Some? && r.description.value != "" ==> d == r.description.value)
      && (r.description.None? || r.description.value == "" ==> d == "No description available")
  {
  }

  /** The clan card shows every statistic of the record, and a reader can
      recover them from it exactly; `Members` reads as `{members}/50`. */
  lemma ClanEmbedStats(r: ClanRecord, requester: User, now: int)
    ensures ReadClanStats(ClanEmbed(r, requester, now))
      == Some(ClanStats(r.clanLevel, r.members, r.clanPoints, r.warWins))
  {
    ParseIntToString(r.clanLevel);
    ReadMembersOf(r.members);
    ParseIntToString(r.clanPoints);
    ParseIntToString(r.warWins);
  }

  /** The player card's fixed parts: its colour, no thumbnail, the title
      from the record's own name and tag, six inline fields in their fixed
      order, and the requester in the footer. */
  lemma PlayerEmbedLayout(r: PlayerRecord, requester: User, now: int)
    ensures var e := PlayerEmbed(r, requester, now);
      && e.color == PlayerColor
      && e.title == r.name + " (" + r.tag + ")"
      && e.thumbnail == None
      && FieldNames(e.fields) == PlayerFieldNames
      && AllInline(e.fields)
      && e.footer == Footer("Requested by " + requester.tag, requester.avatarUrl)
      && e.timestamp == now
  {
    var e := PlayerEmbed(r, requester, now);
    assert FieldNames(e.fields) == PlayerFieldNames by {
      assert forall i :: 0 <= i < 6 ==> FieldNames(e.fields)[i] == PlayerFieldNames[i];
    }
  }

  /** The player card shows the town hall level in its description and
      every other statistic in a field, all recoverable exactly. */
  lemma PlayerEmbedStats(r: PlayerRecord, requester: User, now: int)
    ensures ReadPlayerStats(PlayerEmbed(r, requester, now))
      == Some(PlayerStats(r.townHallLevel, r.expLevel, r.trophies, r.bestTrophies,
                          r.warStars, r.attackWins, r.defenseWins))
  {
    ReadTownHallOf(r.townHallLevel);
    ParseIntToString(r.expLevel);
    ParseIntToString(r.trophies);
    ParseIntToString(r.bestTrophies);
    ParseIntToString(r.warStars);
    ParseIntToString(r.attackWins);
    ParseIntToString(r.defenseWins);
  }

  /** A clan card and a player card are never the same card. */
  lemma ClanAndPlayerEmbedsDiffer(c: ClanRecord, p: PlayerRecord, u1: User, u2: User, t1: int, t2: int)
    ensures ClanEmbed(c, u1, t1) != PlayerEmbed(p, u2, t2)
  {
    assert ClanColor[3] != PlayerColor[3];
  }

  /** A worked clan example: level 10, 37 members, 25000 points, 150 war wins. */
  lemma ClanFieldsExample(r: ClanRecord, requester: User, now: int)
    requires r.clanLevel == 10 && r.members == 37 && r.clanPoints == 25000 && r.warWins == 150
    ensures ClanEmbed(r, requester, now).fields ==
      [ Field("Clan Level", "10", true), Field("Members", "37/50", true),
        Field("Clan Points", "25000", true), Field("War Wins", "150", true) ]
  {
    assert IntToString(10) == NatToString(1) + [DigitChar(0)] == "10";
    assert IntToString(37) == NatToString(3) + [DigitChar(7)] == "37";
    assert NatToString(250) == NatToString(25) + [DigitChar(0)] == "250";
    assert IntToString(25000) == NatToString(2500) + [DigitChar(0)] == "25000";
    assert IntToString(150) == NatToString(15) + [DigitChar(0)] == "150";
    assert IntToString(r.members) + MembersSuffix == "37/50";
  }

  /** A worked player example: town hall level 13. */
  lemma PlayerDescriptionExample(r: PlayerRecord, requester: User, now: int)
    requires r.townHallLevel == 13
    ensures PlayerEmbed(r, requester, now).description == "Town Hall Level: 13"
  {
    assert IntToString(13) == NatToString(1) + [DigitChar(3)] == "13";
  }
}
