# bot.nev moderation, dedup and scheduling core in Dafny

This project models the policy logic shared by the two bots of bot.nev:
the local command bot (`api/bot.js`) and the serverless bot API
(`api/overpoweredbot.js`). Both keep generated "sites"/"bots" in one
`sites` table. Each row holds a name, a description, a map of named text
files, a `hash` identifier, a creation time and, for bots, an API key.

The model covers:

- the **pattern filter** `moderateContent`: a literal, case-sensitive substring scan for `<script>alert`, `eval(` and `malicious`;
- the **identifiers** `srv_<ms>_<r>` and `bot_<ms>_<r>`, and the 16-byte hex **API key**;
- the **content generators** `generateDefaultFiles` (one `index.hsx` page) and `generateUserFiles` (one `bot.js` script);
- the fail-open **dedup check** `checkDuplicate`;
- the **improvement pass** `improveServer`: append a timestamped marker to every file, re-filter, then skip or replace `files` of the rows with that hash;
- the **age scheduler** `runScheduledImprovements`: one tick of the timer, selecting rows whose whole-day age is 1, 3, 7, 30, 90 or 365;
- the **command flow** of `handleCommand` (`!ping`, `!checksite`, `!createserver`, `!listservers`);
- `createBot` and the HTTP `handler` dispatch with its `botFile` fallback.

The world outside is made explicit:

- Store reads are values of `Fetch<T>`: an error, or data that may be `null`.
- Store writes are pure functions on a `Store`, a sequence of rows, each gated by a flag or predicate telling whether the store accepted it.
- Rows are a sequence, not a map keyed by hash, because the hash is not unique. An update `.eq('hash', h)` rewrites every row with that hash.
- Clock readings are parameters, one per reading the source takes: millisecond integers for identifiers, names and creation times; one instant per fetched row for the scheduler's age test; and one ISO timestamp string per file of each improvement pass.
- `Math.random()` becomes an integer below 10000, and `crypto.randomBytes(16)` becomes a 16-byte sequence.

Modules, leaf first: `Wrappers` (Option), `Text` (includes, split/join,
decimal digits), `Hex`, `Moderation`, `Records` (rows, store, writes),
`Fingerprint`, `Templates`, `Dedup`, `Improvement`, `Scheduler`,
`LocalBot` (`api/bot.js` commands), `BotApi` (`api/overpoweredbot.js`).

Behaviours of the code a reader might not expect:

- `generateDefaultFiles` depends on the description only.
- A failed insert or update is only logged. `handler` answers 200 for `createbot` even when the bot was rejected by the filter or the insert failed (`BotApi.HarmfulBotRejectedSilently`).
- `!checksite` runs the dedup query on the site's own hash. Against a healthy store it therefore always reports a duplicate (`LocalBot.CheckSiteSeesItself`).
- `!createserver` queries a freshly generated hash. It can only detect an exact identifier collision (`LocalBot.DuplicateMeansIdentifierCollision`).
- The scheduler does not remember past passes. A row stays selected on every tick of a milestone day (`Scheduler.SelectedOnMilestoneDays`), so with a one-minute tick it is improved about 1440 times that day. The model keeps this behaviour.

## Model

| member | source | states |
|---|---|---|
| Text.Includes | api/bot.js:44 | `file.includes(pattern)` is true exactly when the pattern occurs at some index of the file |
| Text.JoinSplit | api/bot.js:104 | joining the pieces of `split(' ')` with a space gives back the input line |
| Text.SplitAtFirst | api/bot.js:104 | the first piece of a split is the text before the first space; the rest are the pieces of what follows |
| Text.SplitWithoutSeparator | api/bot.js:104 | a line without a space splits into itself alone, so there are no arguments |
| Text.ParseNat | api/bot.js:51 | a string is accepted iff it is a non-empty run of decimal digits without a leading zero, the form `${n}` produces |
| Text.ParseShowNat | api/bot.js:51 | the decimal rendering of a millisecond or random integer reads back as that integer |
| Text.ShowParseNat | api/bot.js:51 | every accepted digit string is the rendering of the number it reads, so the rendering is the only string for its value |
| Moderation.ContainsHarmfulPattern | api/bot.js:41-45 | one file is flagged iff it contains one of the three denylisted literals |
| Moderation.ModerateContent | api/bot.js:40-48 | a file map is flagged iff some file contains some denylisted literal; the empty map is never flagged |
| Moderation.HarmfulFileFlags | api/overpoweredbot.js:25-33 | any file holding a harmful piece of text makes the whole map flagged |
| Moderation.HarmfulAfterAppend | api/bot.js:66-69 | appending text that starts with a character no pattern uses, and that lacks both 'c' and '(', never changes a file's verdict |
| Hex.HexEncode | api/overpoweredbot.js:22 | hex output has two lower-case hex digits per byte; character 2i is byte i's high nibble and 2i+1 its low nibble |
| Hex.DecodeEncode | api/overpoweredbot.js:22 | decoding the hex string gives back the original bytes |
| Fingerprint.ParseMakeHash | api/bot.js:51 | `tag_ms_r` splits back into exactly the tag, the clock reading and the random integer |
| Fingerprint.ParseHashExact | api/bot.js:51 | any string that reads as tag, milliseconds and random integer is exactly `tag_ms_r` with both numbers in plain decimal |
| Fingerprint.OnlyIdentifierWithParts | api/bot.js:51 | no string other than `tag_ms_r` reads back as those three parts |
| Fingerprint.GenerateServerHash | api/bot.js:50-52 | the server hash reads back as tag `srv`, the given milliseconds and the given random integer below 10000, and is the only string that does |
| Fingerprint.GenerateBotHash | api/overpoweredbot.js:56 | the bot hash reads back as tag `bot`, the given milliseconds and the given random integer below 10000, and is the only string that does |
| Fingerprint.GenerateAPIKey | api/overpoweredbot.js:21-23 | the key is 32 lower-case hex digits; digits 2i and 2i+1 encode byte i, high nibble first; it decodes to the 16 random bytes |
| Templates.GenerateDefaultFiles | api/bot.js:54-58 | exactly one file, `index.hsx`, whose content contains the description verbatim and yields it back when read |
| Templates.ReadBackDefaultPage | api/bot.js:56 | the description can be read back from the generated page, so distinct descriptions give distinct pages |
| Templates.PageFlaggedIffDescriptionHarmful | api/bot.js:54-58 | the generated page is flagged exactly when the description holds a denylisted pattern; the fixed template text neither contains a pattern nor completes one at its seams with the description |
| Templates.GenerateUserFiles | api/overpoweredbot.js:35-52 | exactly one file, `bot.js`, whose content contains both the API key and the description verbatim, and reads back as the key in the `API_KEY` slot and the description in its slot |
| Templates.ReadBackBotScript | api/overpoweredbot.js:37-39 | given the key's length, the key and the description can both be read back from the script |
| Records.RowsWithHash | api/bot.js:27-30 | the hash query returns exactly the stored rows carrying that hash, each as often as it is stored, and never more rows than the store holds |
| Records.ApplyUpdate | api/bot.js:74-77 | an accepted update keeps the row count; it replaces `files` of the rows with the hash and changes no other field or row |
| Records.TryUpdate | api/bot.js:74-79 | a rejected update changes nothing; an accepted one gives every row with the hash the new files; no other field changes |
| Records.TryInsert | api/bot.js:140-141 | a rejected insert changes nothing; an accepted one appends exactly the new row after the existing rows |
| Dedup.CheckDuplicate | api/bot.js:26-38 | a query error or `null` data means not a duplicate (fail-open); otherwise duplicate iff at least one row came back |
| Dedup.DuplicateIffHashStored | api/bot.js:27-37 | against a healthy store, duplicate iff some stored row already has the hash |
| Improvement.AppendMarker | api/bot.js:64-67 | improved files have the same names; each new content is the old one followed by `\n<!-- Auto-improved at <ts> -->` with that file's own clock reading; stripping that marker gives back the original files |
| Improvement.ImproveServer | api/bot.js:69-77 | a pass is skipped iff the improved files are flagged; otherwise the update carries the server's hash and the clean improved files |
| Improvement.MarkerAvoidsPatterns | api/bot.js:66 | with an ISO timestamp the marker starts with a newline, which no pattern contains, and holds neither 'c' nor '(' |
| Improvement.SkipIffAlreadyFlagged | api/bot.js:64-72 | with ISO timestamps the markers add no pattern, so a pass is skipped exactly when the original files were already flagged |
| Improvement.ImproveStep | api/bot.js:61-81 | a skip or a rejected write changes nothing; a clean accepted pass gives every row with the server's hash the improved files; no other row or field changes |
| Scheduler.AgeDays | api/bot.js:92 | the age is the whole number of days elapsed, rounded down, also for negative differences |
| Scheduler.DueServers | api/bot.js:89-96 | a fetched position is selected iff that row's age in days, at the instant read for it, is one of 1, 3, 7, 30, 90, 365; positions come in fetch order |
| Scheduler.ImproveAll | api/bot.js:89-97 | the sweep keeps the row count and every non-`files` field; a changed row has clean files and shares its hash with a fetched row that was due at its own instant |
| Scheduler.RunScheduledImprovements | api/bot.js:84-98 | a fetch error or `null` result changes nothing; otherwise the fetched rows are swept, with changes limited as for the sweep |
| Scheduler.SelectedOnMilestoneDays | api/bot.js:90-94 | a row created n days plus less than a day ago has age n; it is selected iff n is a milestone, on every tick of that day |
| Scheduler.SweepTouchesOnlyDue | api/bot.js:89-96 | sweeping all fetched rows is the same as sweeping only the selected ones |
| Scheduler.SweepImprovesDueRow | api/bot.js:89-97 | with distinct fetched hashes, a due row whose improved files are clean and accepted leaves every stored row with its hash holding those improved files |
| Scheduler.TickImprovesDueRow | api/bot.js:84-97 | after a successful fetch, the tick improves such a due row in the same way |
| Scheduler.ThreeDaysSelectedFourDaysNot | api/bot.js:92-94 | a row created three days ago is selected; a row created four days ago is not |
| LocalBot.CheckSite | api/bot.js:108-120 | a read error or a missing row gives "not found"; a found row always gives a report holding the name, the filter verdict and the fail-open dedup verdict |
| LocalBot.CreateServer | api/bot.js:122-143 | flagged files abort before dedup and insert; a duplicate aborts before insert; a rejected insert reports the failure; only an accepted insert adds one row, with name `Server_<ms>`, the description, exactly the generated page, the creation instant and a `srv_` hash |
| LocalBot.ListServers | api/bot.js:145-152 | one (name, hash) entry per returned row, in order; an error gives its message, and an empty or `null` result gives "No servers found." |
| LocalBot.HandleCommand | api/bot.js:103-155 | `!ping` answers Pong, `!checksite` gives the site report, `!listservers` the list, any other first word "Unknown command"; only a successful `!createserver` changes the store |
| LocalBot.CreateServerTakesRestOfLine | api/bot.js:104-123 | the `!createserver` description is the whole line after the first space, inner spaces included |
| LocalBot.CreateServerWithoutArguments | api/bot.js:104-123 | `!createserver` with no argument creates from the empty description |
| LocalBot.HarmfulDescriptionAborts | api/bot.js:127-129 | a description containing a denylisted literal aborts creation and leaves the store unchanged, whatever dedup would say |
| LocalBot.AbortedIffDescriptionHarmful | api/bot.js:127-129 | `!createserver` aborts on the filter exactly when the description holds a denylisted pattern |
| LocalBot.HarmlessDescriptionCreated | api/bot.js:122-142 | a harmless description, a fresh identifier not yet stored in a healthy store, and an accepted insert create exactly one new row with that description |
| LocalBot.HelloWorldCreated | api/bot.js:103-142 | the line `!createserver Hello World` creates a server described as "Hello World" under the same conditions |
| LocalBot.DuplicateMeansIdentifierCollision | api/bot.js:126-130 | against a healthy store, creation is refused as duplicate iff the fresh hash already exists |
| LocalBot.CheckSiteSeesItself | api/bot.js:116-119 | for a site read from a healthy store, `!checksite` always reports a duplicate |
| BotApi.CreateBot | api/overpoweredbot.js:55-74 | flagged files mean no insert, with no dedup query; an inserted row is named `Bot_<ms>`, carries the creation instant and exactly the generated `bot.js`, whose `API_KEY` slot holds the row's `api_key`, which decodes to the random bytes; its hash is `bot_<ms>_<r>` |
| BotApi.BotFile | api/overpoweredbot.js:115 | `bot.js` content when it is present and non-empty, otherwise `// No bot file`; never empty |
| BotApi.Handler | api/overpoweredbot.js:103-134 | 400 iff the action is not listbots, getbot with an id, or createbot with a description; only createbot writes, and it always answers 200; listbots answers 500 with the error message on a read error, an uncaught throw on `null` data, otherwise 200 with one view per row (name, description, hash, key, `botFile`); getbot gives 404 iff the read fails or is empty, otherwise 200 with the bot and its `botFile` |
| BotApi.HarmfulBotRejectedSilently | api/overpoweredbot.js:128-131 | a harmful bot description never reaches the store, yet the request still answers 200 |

## Left out

- The Supabase client, credentials and environment checks, `readline`, `console` output and `process.exit`. These are I/O plumbing (`api/bot.js:1-23`, `api/bot.js:158`, `api/overpoweredbot.js:1-18`).
- The CLI mode of `api/overpoweredbot.js` (lines 86-100) and its `listBots` (lines 76-83). They are console plumbing around the same list read that `LocalBot.ListServers` models.
- `setInterval` (`api/bot.js:100`) and races between a tick and a command. One tick is one call of `Scheduler.RunScheduledImprovements`.
- `Date.now`, `new Date()`, `toISOString`, `Math.random` and `crypto.randomBytes`. They are parameters, one value per call the source makes. `created_at` is an integer millisecond timestamp. The ISO string the source stores, and `new Date(...)` parsing it (an invalid date gives `NaN`, which is never due), are not modelled.
- The filter values of store queries (`siteId = args[0]`, the hash or id of `getbot`) and `.limit(10)`. The query result itself is the parameter.
- HTTP details. A response is a status code and an abstract payload; JSON serialisation and the spread `{ ...bot, botFile }` are not modelled.
- JavaScript strings are sequences of UTF-16 code units, while a Dafny `string` is a sequence of Unicode scalar values. The core never depends on the difference: every literal it matches, splits on or splices around is ASCII.
- Rows whose `files` is `null`, and query values that are arrays. In the model `files` is always a map and a query value is a string or absent.
- api/generateExplore.js, which renders HTML and writes a file. Its only logic, the `botFile` fallback, is `BotApi.BotFile`.
- Dedup.CheckDuplicate: when the query returns `null` data without an error, the source returns `null`, not `false`. The model returns `false`. `null` is falsy in the `!createserver` test; `!checksite` would print "null" instead of "false".
- Scheduler.SweepImprovesDueRow: states the effect of a pass only when the fetched hashes are distinct. When two due rows share a hash, the later pass overwrites the earlier one's files, and the model states only the bound of `Scheduler.ImproveAll`.
- Scheduler.RunScheduledImprovements: a failed update is modelled as the store rejecting that write. The error logging and the absence of retries are not represented.
