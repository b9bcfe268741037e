# Clash of Clans lookup bot — reply model

A Dafny model of the reply logic of a small Discord bot. The bot answers two
slash commands, `/clan tag:<tag>` and `/player tag:<tag>`. It fetches the
clan or player record from the Clash of Clans API (through the
`cocproxy.royaleapi.dev` proxy) and replies with exactly one message: a
plain error text if the fetch failed, or one embed card built from the
record. Interactions that are not commands, and commands by other names,
get no reply.

The model is a set of pure functions over values:

- `Bot.Handle(interaction, remote, now)` is the `interactionCreate`
  handler. It returns the reply (`Text` or `EmbedReply`), or `None` when
  nothing is sent.
- `remote` stands for the API. It maps each request URL to the record the
  API would return. An absent URL stands for what the `catch` in
  `fetchClanData` / `fetchPlayerData` turns into `null` (a transport error,
  a non-2xx status). It also stands for a falsy body (`null` or `""`),
  which fails the `if (!clanData)` test the same way. A 2xx body that is
  not JSON is not modelled; see the coercions line under "Left out".
- `now` is the instant `setTimestamp()` reads from the clock.
- The user's avatar URL is an opaque optional string on `Embeds.User`.

Modules, one per concern of `index.js`:

- `Wrappers`: `Option`.
- `Decimal`: `${n}` for integers (`IntToString`), with `ParseInt` as its
  inverse.
- `UriComponent`: ECMAScript `encodeURIComponent` over Unicode scalar
  values. It encodes each character to UTF-8, then percent-encodes each byte
  as `%XX` with upper-case hex (section 2.1 of RFC 3986). Letters, digits
  and `-_.!~*'()` stay as they are. `Decode` is an inverse used to prove the
  encoding lossless.
- `ClashApi`: the decoded records, the request URLs built by
  `fetchClanData` / `fetchPlayerData`, and the fetch as a lookup in
  `remote`.
- `Embeds`: the two card templates. It also has readers that recover the
  statistics from a card.
- `Bot`: dispatch, the error text, the per-kind replies and the handler.

## Model

| member | source | states |
|---|---|---|
| `Decimal.NatToString` | index.js:69 | the rendering of a natural number is non-empty and all digits; it starts with `0` only when it is exactly `0` |
| `Decimal.IntToString` | index.js:69-72 | a leading `-` appears exactly for negative numbers; everything else is digits with no leading zero (so no `07`, no `-0`), and only 0 renders as `0` |
| `Decimal.ParseIntToString` | index.js:69-72 | every rendered number reads back as the same integer |
| `Decimal.IntToStringOfParseInt` | index.js:69-72 | `ParseInt` accepts only canonical numerals, so the only string that reads as `n` is `${n}` itself (the converse of the round trip) |
| `Decimal.IntToStringInjective` | index.js:69-72 | two integers render alike exactly when they are equal |
| `UriComponent.Encode` | index.js:13 | the encoded tag contains only unreserved characters and `%`; every `%` is followed by two upper-case hex digits; it is 1 to 12 times as long as the tag |
| `UriComponent.DecodeEncode` | index.js:13 | decoding the percent-encoded tag gives back the exact tag, multi-byte UTF-8 characters included |
| `UriComponent.EncodeInjective` | index.js:28 | two tags have the same encoding exactly when they are equal |
| `UriComponent.EncodeUnreserved` | index.js:13 | a tag made only of unreserved characters is sent as it is |
| `UriComponent.EncodeHasNoDelimiters` | index.js:13 | the encoded tag never contains `/`, `?` or `#` |
| `UriComponent.EncodeExampleTag` | index.js:119 | the example tag `#2P0LYQ09V` is sent as `%232P0LYQ09V` |
| `UriComponent.EncodeNonAsciiExample` | index.js:13 | a non-ASCII tag character is escaped as its UTF-8 bytes in upper-case hex: `é` is sent as `%C3%A9` |
| `ClashApi.RequestUrlShape` | index.js:8-13 | `ClashApi.RequestUrl`: the request URL is the base URL, then `/clans/` or `/players/`, then the encoded tag as one path segment with no `/`, `?` or `#` |
| `ClashApi.ParseRequestUrlOfRequestUrl` | index.js:28 | both the kind and the raw tag can be read back from any request URL |
| `ClashApi.RequestUrlInjective` | index.js:13 | two lookups share a request URL exactly when they have the same kind and the same tag |
| `ClashApi.ClanUrlOfExampleTag` | index.js:13 | the clan URL for `#2P0LYQ09V` is `https://cocproxy.royaleapi.dev/v1/clans/%232P0LYQ09V` |
| `Embeds.ClanEmbedLayout` | index.js:63-75 | `Embeds.ClanEmbed`: clan card: colour `#0099ff`, title `{name} ({tag})` from the record, the medium badge as thumbnail, fields `Clan Level`, `Members`, `Clan Points`, `War Wins` in that order and all inline, footer `Requested by {user tag}` with the avatar, timestamp = the given instant |
| `Embeds.ClanEmbedDescription` | index.js:66 | `Embeds.OrElse` in `Embeds.ClanEmbed`: the clan description is the record's own when present and non-empty; otherwise, the empty string included, it is `No description available` |
| `Embeds.ClanEmbedStats` | index.js:68-73 | `Embeds.ClanEmbed`: the four clan statistics can all be read back exactly from the card; `Members` reads as `{members}/50` |
| `Embeds.ClanStatsFixFieldText` | index.js:69-72 | a card whose statistics read back has exactly the field texts `${clanLevel}`, `${members}/50`, `${clanPoints}`, `${warWins}`; with `ClanEmbedStats` this fixes the field values of `ClanEmbed` |
| `Embeds.PlayerEmbedLayout` | index.js:90-103 | `Embeds.PlayerEmbed`: player card: colour `#00ff99`, title `{name} ({tag})` from the record, no thumbnail, fields `Experience Level`, `Trophies`, `Best Trophies`, `War Stars`, `Attack Wins`, `Defense Wins` in that order and all inline, footer as for clans |
| `Embeds.PlayerEmbedStats` | index.js:93-101 | `Embeds.PlayerEmbed`: the town hall level (from `Town Hall Level: {n}`) and the six field statistics can all be read back exactly from the card |
| `Embeds.PlayerStatsFixFieldText` | index.js:93-101 | a card whose statistics read back has exactly the description `Town Hall Level: ${townHallLevel}` and a `${n}` text for each of the six fields; with `PlayerEmbedStats` this fixes them for `PlayerEmbed` |
| `Embeds.ClanAndPlayerEmbedsDiffer` | index.js:64 | a clan card never equals a player card, because their colours differ (index.js:91) |
| `Embeds.ClanFieldsExample` | index.js:68-73 | a clan with level 10, 37 members, 25000 points and 150 war wins gets exactly the fields `10`, `37/50`, `25000`, `150`, all inline |
| `Embeds.PlayerDescriptionExample` | index.js:93 | town hall level 13 is described as exactly `Town Hall Level: 13` |
| `Bot.Dispatch` | index.js:47-51 | a lookup happens exactly for a command named `clan` or `player` (the `else if` at index.js:78), with that kind and the raw tag option |
| `Bot.Handle` | index.js:46-107 | a reply is sent exactly for the `clan` and `player` commands, and it is a single reply: an error text or exactly one card |
| `Bot.HandleReadsOnlyRequests` | index.js:51-82 | the reply depends on the API only through the one URL the command requests, and on nothing from it for an ignored interaction |
| `Bot.IgnoredInteraction` | index.js:47-51 | non-commands and unknown command names get no reply and request no URL |
| `Bot.RecognisedCommandRequest` | index.js:52-55 | a `clan` or `player` command requests exactly one URL, built from its kind and the user's tag |
| `Bot.ParseErrorTextOf` | index.js:58 | `Bot.ErrorText`: the kind and the raw tag can both be read back from the error text |
| `Bot.FetchFailureReply` | index.js:57-59 | `Bot.ClanReply`, `Bot.PlayerReply`, `ClashApi.FetchClanData`, `ClashApi.FetchPlayerData`: the reply is text exactly when the fetch failed, and that text is `Error: Could not fetch {clan or player} data for tag {raw tag}.` (the player branch is index.js:84-86) |
| `Bot.ClanCardReply` | index.js:62-77 | `Bot.ClanReply`, `ClashApi.FetchClanData`: a successful clan fetch replies with `embeds: [card]`: one card built from the fetched record, with its title from the record's name and tag, not from the user's input, and every statistic readable from it |
| `Bot.PlayerCardReply` | index.js:89-105 | `Bot.PlayerReply`, `ClashApi.FetchPlayerData`: a successful player fetch replies with one card built from the fetched record, with its title from the record's name and tag and every statistic readable from it |
| `Bot.HandleDependsOnClockOnlyInTimestamp` | index.js:74 | two identical invocations against the same remote state give replies that differ at most in the cards' timestamps (also index.js:102) |

## Left out

- Discord client construction, `login`, the `ready` handlers and
  slash-command registration (index.js:6, 41-43, 109-143). This is gateway
  I/O and calls into discord.js. The registered option is `required`, so
  a `clan`/`player` interaction is modelled as always carrying a tag.
- The HTTP GET itself, the bearer header and the environment tokens
  (index.js:13-22, 28-37). They are replaced by the `Remote` lookup at the
  request URL. Error logging to the console is not modelled.
- `async`/`await` and concurrent interactions. Each invocation is one
  independent call of `Bot.Handle`.
- Where discord.js refuses the reply, the real bot sends nothing, but the
  model always replies to a recognised command. That happens when a builder
  rejects an over-long value (a title over 256 characters, for example), or
  when `interaction.reply` comes after the interaction's response window
  has closed because the fetch was slow. Both checks live in discord.js and
  the Discord platform, not in this code.
- `setTimestamp()` reads the clock, and `avatarURL()` is a discord.js call.
  Both are taken as inputs (`now`, `User.avatarUrl`).
- The colour is kept as the hex string given to `setColor`. Its conversion
  to an integer happens inside discord.js, which is not part of this model.
- JavaScript coercions of malformed responses. Examples: `${undefined}`
  rendering as `undefined`, a clan body without `badgeUrls` throwing a
  `TypeError`, truthiness of a non-object body. Record fields are modelled as
  present integers and strings; only the clan description is optional.
  This includes a 2xx response whose body is not JSON. axios then returns
  the raw text without throwing, so the text passes the `!clanData` test.
  For a clan, index.js:67 then throws and no reply is sent. For a player,
  a card full of `undefined` is sent.
- The model stops at the request URL string. `Remote` is keyed by that
  string, and `RequestUrlInjective` is about strings. A `.` or `..` tag is
  made only of unreserved characters, so it is sent unescaped, and a URL
  parser on the way may resolve it as a dot segment (`/clans/..` becomes
  `/v1/`). Dot-segment resolution and any other normalisation by the HTTP
  client or the server is not modelled.
- Decimal.IntToString: JavaScript numbers are doubles, and from 10^21 on
  `${n}` switches to exponent notation. The model renders every integer in
  plain decimal. Game statistics stay far below that bound.
- UriComponent.Encode: a Dafny string holds Unicode scalar values, so the
  lone UTF-16 surrogates that make `encodeURIComponent` throw `URIError`
  cannot occur. The model has no such error path.
- The `tag` option is not validated or trimmed before the request (the
  code does neither). Any string, the empty string included, goes into the
  URL and into the error text.
