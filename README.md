# NWS St. Clair County alert bot — a Dafny model

The bot polls the National Weather Service for active alerts in St. Clair
County and posts every new alert to the alert channel each Discord server has
configured. It answers the slash commands `/alerts`, `/forecast`, `/hourly`,
`/outlook`, `/discussion`, `/status`, `/test`, `/setchannel`, `/removechannel`
and `/channelinfo`. The forecast and product commands show text fetched from
the NWS, trimmed to Discord's limits. This project models the decision logic of that bot in Dafny and proves
properties of it:

- **Registry** (`registry.dfy`, held by the class in `bot.dfy`): the
  server-config dict, from `str(guild_id)` to `{"alert_channel_id": id}`.
  - It is kept as two fields of `Bot.NWSAlertBot`: the keys in the dict's
    insertion order and a map holding the records.
  - The model covers set, remove, get and get-all, and loading the dict from
    its file.
- **Dedup store** (`dedup.dfy`, `bot.dfy`): the set of alert ids already
  posted.
  - On load it keeps the last 500 entries of the file's list. A missing
    file, or a read that raises `IOError` or `JSONDecodeError`, gives the
    empty set.
  - The 500-entry cut happens only on load (`bot.py:83`). `add` never
    evicts (`bot.py:365`), so during a run the set can grow past 500.
  - Each save writes the whole set.
- **Poll cycle** (`alerts.dfy`, `bot.dfy`): one run of `check_alerts`.
  - It stops early when no channel is configured.
  - For each fetched alert, it skips ids that are empty or already posted.
  - It decides whether the message pings everyone.
  - It fans the message out to every channel, where each channel may be
    missing, may take the message, or may raise.
  - It marks the id as posted only when at least one channel took the message.
  - `Bot.NWSAlertBot.CheckAlerts` and its loop `PostBatch` are proved equal
    to the functions `PostedAfter` and `CycleLog`. The lemmas of module
    `Alerts` are stated about those functions.
- **Text helpers** of the commands and the alert embed:
  - the truncation limits (`formatting.dfy`);
  - the `days`/`hours` clamps (`formatting.dfy`);
  - outlook chunking into fields (`formatting.dfy`);
  - weather-emoji lookup (`emoji.dfy`);
  - synopsis extraction (`synopsis.dfy`);
  - the content of an alert embed (`embed.dfy`).
- `strings.dfy` models the Python `str` operations these rely on.
- `wrappers.dfy` holds `Option` and the duplicate-freedom predicate `Distinct`.

Things the model does not implement itself:

- **Network results are inputs.**
  - The fetched alerts are a parameter.
  - Each channel send is a parameter too: an oracle `send(i, j)` that gives the
    outcome of posting alert `i` to channel `j`.
- **Files are modelled by what they hold and what is written to them.**
  - Reading a file gives `None` when the file is missing or the read raises
    `IOError` or `JSONDecodeError`, and otherwise the parsed value.
  - Writing a file appends the written value to a ghost log on the bot object.

## Model

| member | source | states |
|---|---|---|
| Strings.IntToString | bot.py:110 | `str(n)` is non-empty and starts with `-` exactly for negative `n` |
| Strings.IntToStringInjective | bot.py:110 | distinct integers render to distinct strings, so distinct guilds get distinct config keys |
| Strings.Lower | bot.py:416 | `lower()` keeps the length and lower-cases each character |
| Strings.Upper | bot.py:612 | `upper()` keeps the length and upper-cases each character |
| Strings.ContainsIff | bot.py:418 | the substring test holds exactly when the keyword occurs at some position of the text |
| Strings.ContainsTrans | bot.py:417-419 | a text holding a keyword holds every keyword that the first keyword holds |
| Strings.Split | bot.py:607 | `split("\n")` gives at least one piece and no piece holds the separator |
| Strings.JoinSplit | bot.py:607 | joining the split pieces with the separator restores the text |
| Strings.Strip | bot.py:620 | `strip()` gives a slice `s[a:b]` of the text with only whitespace before `a` and after `b`, and the slice neither starts nor ends with whitespace |
| Strings.Contains | bot.py:418 | definition of `t in s`, a match at some start position; its meaning is stated by `ContainsIff` |
| Strings.StartsWith | bot.py:615 | definition of `line.startswith(t)` as a prefix test |
| Strings.Join | bot.py:620 | definition of `sep.join(parts)`; `JoinSplit` states it undoes `Split` |
| Strings.Take | bot.py:620 | `s[:n]` has length `min(len(s), n)` and is a prefix of `s` |
| Registry.GuildKey | bot.py:110 | definition of `str(guild_id)` as the record key; `GuildKeyInjective` states it separates guilds |
| Registry.GuildKeyInjective | bot.py:110 | different guild ids never share a key |
| Registry.Upsert | bot.py:110 | definition of the iteration order after `d[key] = value`: a present key keeps its place, a new key goes last; `UpsertWellFormed` states its properties |
| Registry.UpsertWellFormed | bot.py:110 | after `d[key] = value` the key order still lists each key of the dict exactly once, `key` among them |
| Registry.Without | bot.py:117 | `del d[key]` keeps exactly the other keys of the iteration order; an absent key leaves the order unchanged |
| Registry.WithoutAt | bot.py:116-117 | deleting the key at position `p` of a duplicate-free order keeps the keys before and after `p` in their order |
| Registry.WithoutDistinct | bot.py:116-117 | deleting a present key shortens the order by one and keeps it duplicate-free; deleting an absent key changes nothing |
| Registry.WithoutWellFormed | bot.py:117 | after `del d[key]` the order and the dict still agree |
| Registry.Truthy | bot.py:133-134 | definition of `if channel_id:` on the looked-up id: neither `None` nor `0` |
| Registry.ChannelsOf | bot.py:129-136 | the collected channel ids are never 0 and are no more than the records |
| Registry.ChannelsOfAppend | bot.py:132-135 | collection follows the dict's order: over two runs of keys it is the first run's channels and then the second's |
| Registry.ChannelsOfSingle | bot.py:133-135 | one record contributes its channel exactly when the id is truthy |
| Registry.ChannelsOfMembership | bot.py:129-136 | a channel is collected exactly when it is non-zero and some record holds it |
| Registry.FromPairs | bot.py:98 | the loaded dict lists each key once and holds exactly the keys of the file |
| Registry.FromPairsLastWins | bot.py:98 | a key's record is the value of its last occurrence in the file |
| Registry.ConfigPairs | bot.py:103-106 | the saved dict lists one `(key, record)` pair per key, in the dict's order, with that key's record |
| Registry.FromConfigPairs | bot.py:98-106 | loading a written dict gives back its order, exactly its keys and each key's record |
| Registry.SaveLoadConfig | bot.py:93-106 | save then load is the identity on a well-formed registry |
| Registry.LoadServerConfig | bot.py:93-101 | a missing or unreadable file gives an empty registry; otherwise the registry holds exactly the file's keys |
| Dedup.LastN | bot.py:83 | `data[-500:]` has `min(len(data), 500)` entries and is a suffix of `data` |
| Dedup.ElementsOf | bot.py:83 | `set(data)` holds exactly the list's entries and has no more elements than the list has entries |
| Dedup.ElementsOfDistinct | bot.py:83 | a list without repeats gives a set of the same size |
| Dedup.LoadPostedAlerts | bot.py:76-86 | the loaded set has at most 500 ids; it is empty on any error; otherwise it holds exactly the last 500 entries of the list |
| Dedup.ReloadAfterSave | bot.py:76-91 | reloading a saved set gives a subset of it: the whole set when it has at most 500 ids, otherwise exactly 500 of them |
| Alerts.IsUrgent | bot.py:340-346 | definition of the ping decision: severity "Extreme" or an event in the ping list; `MessageContent` states its meaning |
| Alerts.IsNew | bot.py:335 | definition of the guard `alert_id and alert_id not in self.posted_alerts` |
| Alerts.PostedAfter | bot.py:332-366 | definition of the posted set after the batch: an alert's id is added when it is new at its turn and some channel took it; `PostedAfterExact` and `PostedAfterGrows` state its meaning |
| Alerts.CycleLog | bot.py:332-361 | definition of the cycle's channel lookups: a new alert is fanned out to every channel and any other alert makes none; `CycleLogAttempts` and `CycleLogOnlyNew` state its meaning |
| Alerts.MessageContent | bot.py:340-347 | the content pings everyone exactly when severity is "Extreme" or the event is a tornado, flash-flood or blizzard warning; otherwise it is empty |
| Alerts.FanOut | bot.py:350-361 | an alert's fan-out makes exactly one lookup per configured channel |
| Alerts.FanOutAt | bot.py:351-361 | the `j`-th lookup is channel `j` with its own outcome, whatever happened at the other channels |
| Alerts.FanOutSucceeds | bot.py:350-356 | `posted_successfully` is set exactly when some channel took the message |
| Alerts.PostedAfterExact | bot.py:332-366 | after the cycle an id is posted exactly when it was posted before, or it is non-empty and some occurrence of it reached a channel |
| Alerts.PostedAfterGrows | bot.py:332-366 | the cycle forgets no id, and each id it adds is a non-empty batch id that some channel took |
| Alerts.NoChannelsNoEffect | bot.py:350-366 | with no channels nothing is looked up and nothing is marked |
| Alerts.CycleLogPrefix | bot.py:332-361 | handling more of the batch only extends the lookup log |
| Alerts.CycleStep | bot.py:332-366 | handling the next alert: it is looked up on every channel only when its id is non-empty and not yet posted, and it is marked only if some channel also took it |
| Alerts.CycleLogAttempts | bot.py:350-361 | an alert that is new at its turn is looked up on every channel, each with its own outcome, even after failures at other channels |
| Alerts.CycleLogOnlyNew | bot.py:332-361 | every logged lookup belongs to an alert that was new at its turn, carries that alert's content and is one configured channel's outcome |
| Alerts.RepostOnlyAfterFailure | bot.py:335-366 | an id repeated in a batch is posted again only if its first occurrence was posted and reached no channel |
| Alerts.OutageScenarioPosted | bot.py:332-366 | store {a, b}, batch a, c, d, second of two channels failing: a is skipped, and c and d are marked after the first channel takes them |
| Alerts.OutageFanOut | bot.py:350-361 | with channel 20 down, an alert goes to channel 10 and then fails at 20, in that order |
| Alerts.OutageScenarioLog | bot.py:332-361 | in that scenario, c and d are each looked up on both channels in order, and a is never looked up |
| Bot.NWSAlertBot.constructor | bot.py:68-73 | both stores come from their files, with the registry's order and dict agreeing |
| Bot.NWSAlertBot.SavePostedAlerts | bot.py:88-91 | the whole current set is written |
| Bot.NWSAlertBot.SaveServerConfig | bot.py:103-106 | the whole current dict is written as its `(key, record)` pairs in order, which loads back to the same registry |
| Bot.NWSAlertBot.GetAlertChannel | bot.py:122-127 | `None` for an unknown guild; otherwise the record's `alert_channel_id` |
| Bot.NWSAlertBot.SetAlertChannel | bot.py:108-111 | the guild reads back the new channel, every other guild reads back what it did before, the key keeps its place or goes last, and the dict is saved |
| Bot.NWSAlertBot.RemoveAlertChannel | bot.py:113-120 | returns whether the guild had a record; the record is gone and other guilds are unchanged; it saves only when something was removed |
| Bot.NWSAlertBot.GetAllAlertChannels | bot.py:129-136 | the loop returns the truthy channel ids in dict order |
| Bot.NWSAlertBot.PostAlert | bot.py:335-366 | a new alert is fanned out with its content; it is marked and saved exactly when some channel took it; a known or empty id makes no lookup |
| Bot.NWSAlertBot.PostBatch | bot.py:332-366 | the batch loop gives the posted set and lookup log of the cycle functions; the set only grows, one save per added id, and the last save holds the final set |
| Bot.NWSAlertBot.CheckAlerts | bot.py:321-367 | no channels: no fetch, no change and no save; otherwise the posted set and the lookup log are those of the cycle functions; the set only grows, with one save per added id, and the last save holds the final set |
| Bot.RegistryScenario | bot.py:108-127 | a method without a contract whose assertions check one run: after setting a guild's channel twice, the second channel is read back, the guild is listed once, removal succeeds, and three saves were made |
| Bot.PostToChannels | bot.py:350-361 | the fan-out loop gives one lookup per channel in order, and its flag is true exactly when some channel took the message |
| Formatting.Truncate | bot.py:282-289 | the result fits the limit; it equals the input exactly when the input fits; a cut text has exactly the limit's length, keeps the input's prefix and ends in "..." |
| Formatting.TruncateIdempotent | bot.py:282-283 | cutting a cut text changes nothing |
| Formatting.AlertField | bot.py:282-289 | description and instruction fields have at most 1024 characters and are unchanged when they fit |
| Formatting.HourlyDescription | bot.py:521-522 | the hourly description has at most 4096 characters and is unchanged when it fits |
| Formatting.OutlookText | bot.py:562-563 | the outlook text has at most 4003 characters; a text that fits is unchanged; a longer one becomes its first 4000 characters and "..." |
| Formatting.Chunks | bot.py:566 | each chunk has 1 to n characters, all but the last have exactly n, and only the empty text gives no chunk |
| Formatting.ConcatChunks | bot.py:566 | writing the chunks in order restores the text |
| Formatting.ChunksAtMost | bot.py:566-567 | a text of at most k·n characters makes at most k chunks |
| Formatting.OutlookFields | bot.py:562-567 | at most four fields, each of 1 to 1024 characters |
| Formatting.OutlookFieldsComplete | bot.py:562-567 | the four-field cap drops nothing: the fields together are exactly the cut outlook text |
| Formatting.Clamp | bot.py:454 | the result is within bounds, equals the input exactly when the input is within bounds, and is the nearer bound otherwise |
| Formatting.ForecastPeriods | bot.py:454-455 | `/forecast` shows the first 1 to 14 periods, as many as the clamped `days` and available |
| Formatting.HourlyPeriods | bot.py:495-496 | `/hourly` shows the first 1 to 24 periods, as many as the clamped `hours` and available |
| Emoji.FirstMatch | bot.py:417-419 | the scan returns the first keyword that occurs; `None` only when no keyword occurs |
| Emoji.FirstMatchAt | bot.py:417-419 | an occurring keyword with no earlier occurring keyword is the one chosen |
| Emoji.WeatherEmojiIn | bot.py:414-420 | the emoji is that of the first keyword found in the lower-cased text, and the default when none is found |
| Emoji.ShadowedNeverChosen | bot.py:417-419 | an entry whose keyword contains an earlier keyword is never chosen |
| Emoji.UnshadowedChosen | bot.py:417-419 | an entry whose keyword contains no earlier keyword is chosen for its own keyword |
| Emoji.AsWrittenMostlySunnyUnreachable | bot.py:391-396 | with the table as written, no text ever selects "mostly sunny" |
| Emoji.AsWrittenMostlyClearUnreachable | bot.py:391-396 | with the table as written, no text ever selects "mostly clear" |
| Emoji.AsWrittenPartlySunnyUnreachable | bot.py:391-396 | with the table as written, no text ever selects "partly sunny" |
| Emoji.AsWrittenMostlySunny | bot.py:391-420 | with the table as written, "Mostly Sunny" gets the plain sun, not its entry's emoji |
| Emoji.WeatherEmoji | bot.py:414-420 | the first-match choice and the default over the corrected table |
| Emoji.CorrectedMostlySunny | bot.py:391-396 | with the corrected table, "mostly sunny" in any ASCII capitalisation gets its own emoji |
| Emoji.CorrectedMostlyClear | bot.py:391-396 | with the corrected table, "mostly clear" gets its own emoji |
| Emoji.CorrectedPartlySunny | bot.py:391-396 | with the corrected table, "partly sunny" gets its own emoji |
| Emoji.CorrectedSunny | bot.py:391-393 | with the corrected table, "sunny" still gets the sun |
| Emoji.CorrectedClear | bot.py:391-393 | with the corrected table, "clear" still gets the sun |
| Emoji.GetWeatherEmoji | bot.py:414-420 | over any table, the loop returns the emoji of the first keyword found in the lower-cased text, or the default; with the table as written this is the bot's function, with the corrected table the corrected one |
| Synopsis.IsHeader | bot.py:612 | definition of the header test on the upper-cased line, both alternatives as written; `IsHeaderIff` states its meaning |
| Synopsis.IsHeaderIff | bot.py:612 | the `.SYNOPSIS` alternative adds nothing: a line is a header exactly when its upper-cased form contains SYNOPSIS |
| Synopsis.Step | bot.py:611-618 | one line of the scan: it stops only inside a synopsis or when already stopped |
| Synopsis.ScanLines | bot.py:611-618 | nothing is collected before a header; a collected line is one of the lines, no header, and does not start with "."; the scan stops only inside a synopsis |
| Synopsis.ScanStep | bot.py:611-618 | scanning `j` lines is one more step after scanning `j - 1` |
| Synopsis.NonHeaders | bot.py:612-618 | the kept lines are no more than the input and none is a header |
| Synopsis.NonHeadersSnoc | bot.py:612-618 | one more line is kept exactly when it is no header |
| Synopsis.StepInside | bot.py:612-618 | inside the synopsis, a line that closes no section is collected unless it is a header |
| Synopsis.FirstHeader | bot.py:612-614 | the first header opens the synopsis with nothing collected |
| Synopsis.ScanInside | bot.py:611-618 | between the first header and the closing line, the scan has collected exactly the non-header lines after the header, in order |
| Synopsis.ScanLinesCollects | bot.py:611-618 | a synopsis that opens at the first header and closes at the first later "." line that is no header (or at the end) collects exactly the non-header lines between them, in order |
| Synopsis.SynopsisOfSection | bot.py:607-620 | the field is those collected lines joined by newlines, stripped and cut to 1024 characters |
| Synopsis.StoppedStays | bot.py:615-616 | after the break, later lines change nothing |
| Synopsis.NoHeaderNothingCollected | bot.py:611-618 | without a header line nothing is collected |
| Synopsis.SynopsisText | bot.py:620 | the synopsis field has at most 1024 characters |
| Synopsis.NoHeaderFallback | bot.py:620 | a product without a SYNOPSIS line falls back to its first 1024 characters |
| Synopsis.CollectedStripped | bot.py:620 | a collected synopsis gives a field that does not start with whitespace; the cut may end it in a space |
| Synopsis.ExtractSynopsis | bot.py:607-620 | the loop with its `continue` and `break` computes the synopsis field |
| AlertEmbed.SeverityColor | bot.py:271 | a listed severity gets its colour and any other gets the colour of "Unknown"; the colour is always one of the table's |
| AlertEmbed.AlertEmoji | bot.py:268 | a listed event gets its emoji and any other gets ⚠️ |
| AlertEmbed.GetOr | bot.py:257-261 | a missing property reads as its default |
| AlertEmbed.CreateAlertEmbed | bot.py:253-289 | the severity shown is the property or "Unknown"; the colour follows the severity shown; the headline and description default when missing; the description has at most 1024 characters; the instruction field is present exactly when the instruction is non-empty, and then has at most 1024 characters |
| AlertEmbed.EmbedDefaults | bot.py:257-275 | a missing severity shows "Unknown" in grey; the title is the event's emoji and the event, or ⚠️ and "Unknown Alert" |
| AlertEmbed.ExtremeIsRed | bot.py:34-40 | an extreme alert is drawn in red |
| AlertEmbed.PingEventsHaveEmoji | bot.py:43-64 | every event that always pings has its own emoji |

## Left out

- Discord itself: embeds as objects, `get_channel`, `channel.send` and guild names. Channel outcomes are the oracle `send(i, j)`, and an embed is the record `AlertCard`.
- HTTP fetching (`fetch_alerts` and the other `fetch_*` methods, `aiohttp`, timeouts, status codes). The fetched batch and product texts are parameters, and a failed fetch is the empty batch.
- JSON files. Reading and parsing give an `Option` of the parsed value. Writing is a ghost log of what was written. File contents other than a list of strings or a dict of records are not modelled.
- `tasks.loop` scheduling, `before_loop`, concurrency between the poll and the commands, `print` logging, timestamps, `datetime` parsing and the latency shown by `/status`.
- The bodies of `/alerts`, `/status`, `/test`, `/setchannel`, `/removechannel` and `/channelinfo`. They check permissions, call the modelled registry operations, fetch, and build Discord embeds. `/forecast`, `/hourly`, `/outlook` and `/discussion` are modelled only in their clamps, cuts, chunking, emoji and synopsis.
- The text each forecast line is built from: temperatures, wind, and time formatting.
- `productText` defaults and the `if synopsis_text` guard. Both concern how the embed is assembled, not the text computed.
- Strings.Lower: ASCII letters only. Python's `lower()`/`upper()` map all Unicode letters, so texts with non-ASCII letters may differ.
- Formatting.OutlookText: a text that fits is unchanged, but the converse is not stated. A 4003-character text ending in "..." is mapped to itself by the cut, so the converse does not hold.
- Emoji.WeatherEmoji: the corrected table is checked only for the five sky-cover phrases of the finding.
- Dedup.LoadPostedAlerts: a file that is not valid UTF-8 is not modelled. The loaders catch only `JSONDecodeError` and `IOError` (`bot.py:84`, `bot.py:99`), so a `UnicodeDecodeError` escapes and `__init__` fails. The model reads every failed read as `None`.
- Registry.LoadServerConfig: the same `UnicodeDecodeError` escape applies to `bot.py:99`.
- Bot.NWSAlertBot.SaveServerConfig: writes cannot fail in the model. The saves at `bot.py:90` and `bot.py:105` are unguarded. An `OSError` in `set_alert_channel` leaves the dict already changed but unsaved. An `OSError` in the middle of `check_alerts` ends that cycle after part of the batch.
- Bot.NWSAlertBot.SavePostedAlerts: writes cannot fail in the model, as for the config save.
- Bot.PostToChannels: a send outcome is `Sent`, `Failed` or a missing channel. `channel.send` raising something other than `DiscordException` (`bot.py:358`) ends the whole cycle, and that case is not modelled.
- AlertEmbed.CreateAlertEmbed: a property present with the JSON value `null` is not modelled. `props.get` then gives `None`, and `len(description)` raises at `bot.py:282`. `AlertProperties` has only present or missing values, and a missing value reads as its default.

## Findings

| source | as written | input that shows it | evidently intended | confidence | as-written member | corrected member |
|---|---|---|---|---|---|---|
| bot.py:391-396 | `WEATHER_EMOJIS` lists "sunny" and "clear" before "mostly sunny", "mostly clear" and "partly sunny". `get_weather_emoji` returns the first keyword found, so each two-word phrase is shadowed by the single word it contains. | short forecast "Mostly Sunny" gets ☀️ instead of 🌤️ | each phrase gets its own entry's emoji, with the longer phrases tried first | not executed | Emoji.AsWrittenMostlySunny | Emoji.CorrectedMostlySunny |
