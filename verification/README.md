# Likes bot core in Dafny

A Dafny model of the decision and bookkeeping logic of a Telegram bot that
sends "likes" to game player ids through a remote service. Users register
game ids with `/addid`. Every night the scheduler (`send_automatic_likes`)
calls the service once per active id. It classifies each answer as success,
partial or error, updates the registration and the send history accordingly,
sends every user one summary and sends the admin one report. The `/like`
command does the same for a single id on demand. The admin manages the
service key with `/setkey` and `/checkkey`.

The model is functional. The SQLite store is an immutable `Registry.Store`
with three tables: a user map, a sequence of game-id rows (soft-deleted,
never removed) and an append-only history. The remote service is an oracle
`ApiClient.Api` from (game id, key, number of earlier calls) to a parsed
payload or a raised exception. The key file is an `Option<string>`, and
timestamps are an opaque `now` string.

The nightly cycle is a fold over the `(user, ids)` groups. It keeps its
calls, its store writes (`Registry.Effect`) and its outgoing messages as
separate channels, together with the three counters of the source. Each
message is kept as its recipient, its kind and the data it counts; the text
layout is not modelled. One `Classification.Classify` serves both the
scheduler and `/like`.

Modules, in dependency order:

- `Wrappers`: `Option`.
- `Text`: the Python string built-ins the bot relies on.
- `Markdown`: the escaping routine, which the source carries three times.
- `NumberFormat`: `format_number`.
- `ApiClient`: response records, synthesised failures, message views and
  the key file.
- `Registry`: database.py.
- `Classification`: the three-way reading of a response and its store
  writes.
- `Scheduler`: scheduler.py.
- `Bot`: the handler logic of bot.py.

## Model

| member | source | states |
|---|---|---|
| Markdown.Escape | scheduler.py:13-32 | an empty text becomes "N/A"; otherwise every one of the 18 special characters gets one backslash in front and no other character changes, so the text grows by exactly the number of special characters |
| Markdown.SequentialReplaceIsPerChar | bot.py:48-53 | the chain of 18 `str.replace` calls equals escaping each character independently: no later replacement disturbs a backslash or character an earlier one inserted |
| Markdown.UnescapeEscape | api_client.py:105-115 | escaping loses no information: a non-empty text is recovered from its escaped form |
| Markdown.EscapePlain | bot.py:44-53 | per-character escaping is the identity on a text without special characters, so such a text, when not empty, is shown exactly as it is |
| Markdown.ReplaceChain | scheduler.py:29-30 | the chained replacements as written only insert: the text never shrinks and an empty text stays empty |
| Markdown.EscapePlaceholder | api_client.py:105-106 | the "N/A" placeholder is a fixed point of escaping, so a missing name and an escaped default render alike |
| NumberFormat.FormatNumber | api_client.py:118-128 | for n >= 0, removing the dots gives the decimal digits of n (which read back as n); the first group has one to three digits and every later group exactly three; a negative n gets a minus sign in front of the same layout |
| NumberFormat.ParseDigitsOfDigits | api_client.py:128 | the digit string under the dots reads back as the number it came from |
| NumberFormat.FormatNumberExample | api_client.py:126 | 15162 is shown as "15.162" and 999 has no separator |
| Text.StripIdempotent | api_client.py:26 | stripping a stripped key changes nothing, so a saved key loads back unchanged |
| Text.ReplaceAllAbsent | bot.py:710 | `str.replace` leaves a text that cannot contain the pattern unchanged |
| Text.ReplaceAll | bot.py:710 | `str.replace` with a non-empty pattern: a text that starts with the pattern yields one that starts with the replacement, a text that does not keeps its first character; replacing the pattern by itself changes nothing, a shorter replacement never lengthens the text, a longer one never shortens it, and an empty text stays empty |
| Text.ReplaceLeadingOccurrence | bot.py:710 | the pattern followed by a tail in which the pattern's first character never occurs becomes the replacement followed by that same tail |
| Text.Strip | api_client.py:47 | `str.strip`: what remains starts and ends with a non-space character and is a contiguous piece of the input, and everything cut away before and after it is white space |
| Text.IsDigits | bot.py:123 | `str.isdigit`: false on the empty string, and an accepted id has no sign and no white space |
| Text.IsDigitsExamples | bot.py:123 | a game id such as "1033857091" is accepted; the empty text, "-1" and "12a" are refused |
| ApiClient.SynthesizedFailure | api_client.py:75-92 | a failed call becomes a record whose error code is "timeout", "connection_error" or "unknown_error" exactly for a timeout, a connection error or any other exception; the message of the last two ends with the exception's text; `usageCounted` is false and no other field, in particular no `success` or `likesAdded`, is present |
| ApiClient.SendLikes | api_client.py:53-92 | the service's payload is returned untouched; a raised call yields exactly the synthesized failure record of its exception kind (timeout, connection error or other) |
| ApiClient.StatusText | api_client.py:131-141 | "Online" exactly when the status is 1, "Offline" for every other status |
| ApiClient.PlayerName | api_client.py:154 | an absent or empty player name is shown as "N/A"; a present non-empty name is shown with every special character escaped, and reads back unchanged |
| ApiClient.CountText | api_client.py:157-161 | an absent count is shown as "0"; a present one is formatted with dot separators |
| ApiClient.ViewOf | api_client.py:154-163 | every displayed field takes the response value when present (the status as its text) and its default when absent: "N/A" for texts, 0 for counts, "Offline" for the status |
| ApiClient.FormatSuccessMessage | api_client.py:144-183 | the success message shows the same fields as the partial message, the likes the response says were added, and "Online" for status 1 |
| ApiClient.FormatPartialMessage | api_client.py:196-206 | the partial view shows the same fields, plus the minimum the service reports or 100 when it reports none |
| ApiClient.PartialDefaults | api_client.py:186-231 | a payload with no fields renders with every default and a minimum of 100 |
| ApiClient.FormatErrorMessage | api_client.py:245-275 | player_not_found selects the not-found template, otherwise timeout selects the timeout template, otherwise the generic one; each names the game id; the message defaults to "Erro desconhecido" |
| ApiClient.TimeoutUsesTimeoutTemplate | api_client.py:75-80 | a client-side timeout is always shown with the timeout template and its fixed message |
| ApiClient.LoadKey | api_client.py:34-50 | no key without a file; otherwise the file's contents, stripped |
| ApiClient.SaveKey | api_client.py:10-31 | loading after saving yields the stripped key |
| Classification.Classify | scheduler.py:105-163 | first match wins: success iff `success` is true and at least 100 likes were added; partial iff `success` is not true and the error is INSUFFICIENT_LIKES; error otherwise; a success carries at least 100 likes; an error carries the message or "Erro desconhecido" |
| Classification.SuccessBelowMinimumIsError | scheduler.py:105-150 | `success` true with fewer than 100 likes matches neither branch and is read as an error |
| Classification.SynthesizedFailuresAreErrors | scheduler.py:148-157 | every failure the client synthesises is read as an error carrying its own message |
| Classification.ClassifyExamples | scheduler.py:105-132 | a 150-like success and a 30-like insufficient answer are classified as success and partial with those counts |
| Classification.RecordFor | scheduler.py:117-157 | the history row: success only for a success; the likes added for success and partial, 0 for an error; no error text for a success, "Menos de 100 likes" for a partial, the response message for an error; the player name except on error |
| Classification.AttemptEffects | scheduler.py:107-157 | a success writes a registration update with the player and likes and then one history row; partial and error write only the history row |
| Classification.AttemptOnStore | scheduler.py:113-157 | one attempt appends exactly one history row and never adds or drops a registration; only a success raises a total, and only on the user's active rows for that id, by the likes added |
| Registry.AddUser | database.py:62-95 | a known id returns false and leaves the store unchanged; a new id is inserted as an active user and returns true |
| Registry.AddUserIdempotent | database.py:76-83 | adding the same user again changes nothing and reports false |
| Registry.AddGameId | database.py:98-131 | an id the user already has active is rejected with the duplicate message and no change; otherwise one active row with a zero total is appended; users and history never change |
| Registry.AddGameIdRejectsRepeat | database.py:112-119 | after an add the id is active for the user, so a second add is rejected |
| Registry.RemoveGameId | database.py:193-214 | soft delete: every row of that user and id is deactivated, no row is removed, no other row changes, and afterwards the id is not active for the user |
| Registry.UpdateGameIdInfo | database.py:217-239 | only the active rows of that user and id change: player name and send date are set and the likes are added to the total |
| Registry.UpdateOnlyIncrements | database.py:230-235 | with a non-negative count no total decreases, owners, ids and active flags are kept, and exactly the matching active rows grow by the count |
| Registry.LogSend | database.py:242-270 | exactly one row is appended and the earlier rows are untouched |
| Registry.GetUserGameIds | database.py:134-158 | exactly the user's active rows, each taken once and in table order: as many rows as the user has active ids, the k-th carrying the k-th id |
| Registry.SortedDistinct | database.py:172-174 | the owners of the active rows, each once, in ascending order |
| Registry.GetAllActiveGameIds | database.py:161-190 | one group per user with an active row, in ascending user order, none empty; each group lists that user's active ids in row order |
| Registry.GroupedCountsActiveRows | database.py:178-187 | the grouping loses and invents no row: the list lengths add up to the number of active rows |
| Registry.GetStats | database.py:293-338 | the users are the active users, the ids the active rows, the total likes the likes of the success rows, the successes the success rows, and the sends all history rows; so the successes are among the sends |
| Registry.EmptyStoreStats | database.py:293-338 | an empty store reports zero users, ids, likes, successes and sends |
| Registry.LogSendStats | database.py:311-326 | logging a send adds one send, and one success with its likes exactly when the row records a success |
| Registry.Apply | database.py:217-270 | a registration update leaves the users and the history alone; a history write appends its row and nothing else; no registration changes owner, id or active flag |
| Registry.ApplyAll | database.py:217-270 | writes applied in order leave the users and the number of registrations alone, and only extend the history at its end |
| Registry.ApplyAllHistory | database.py:217-270 | store writes append exactly their records to the history, and never add, drop, re-key, activate or deactivate a registration |
| Scheduler.UserSummary | scheduler.py:189-235 | the summary block of a user notification: the number of ids, the likes summed over the successes only, and a success count that never exceeds the total |
| Scheduler.ProcessId | scheduler.py:98-163 | one id: one service call, the classified result, that outcome's store writes marked automatic, and the counters advanced by one success or one failure |
| Scheduler.ProcessIds | scheduler.py:98-163 | the inner loop: one result per id, each id called once and in order after the calls already made, and no message |
| Scheduler.ProcessIdsResults | scheduler.py:95-163 | the inner loop gives one result per id, in the ids' order, each carrying the service's answer to that id's own call and the outcome it classifies to |
| Scheduler.ProcessIdsData | scheduler.py:102-163 | result k carries the answer to the k-th call the inner loop makes, for the k-th id |
| Scheduler.ProcessIdsCounters | scheduler.py:110-151 | the inner loop adds one success per success result, one failure per other result, and the likes of the successes only |
| Scheduler.ProcessIdsChannels | scheduler.py:98-157 | the inner loop calls each id once in order, makes exactly those results' writes and sends no message |
| Scheduler.ResultWritesFacts | scheduler.py:113-157 | a user's writes log one automatic history row per result for that user, with the successes and their likes as counted, and one registration update per success |
| Scheduler.AfterUser | scheduler.py:94-166 | one user: their ids are called in order, then one notification goes to that user with their results, classified and in the ids' order; each id is counted once |
| Scheduler.ProcessUsers | scheduler.py:94-166 | the outer loop calls the ids group after group, sends one notification per group and counts every id once |
| Scheduler.UserStepAnswered | scheduler.py:94-166 | processing one more user keeps every notified result the answer to its own call |
| Scheduler.ProcessUsersAnswered | scheduler.py:94-166 | after all users, result i of the notifications is the service's answer to call number i, classified |
| Scheduler.UserStepConsistent | scheduler.py:94-166 | processing one more user, then notifying them, keeps calls, writes, notifications and counters in agreement |
| Scheduler.FullRun | scheduler.py:86-166 | after all users, every id has been called once, user after user; one notification per user in map order lists that user's ids with the answers to their own calls; successes plus failures equal the number of ids |
| Scheduler.ConsistentRecords | scheduler.py:110-157 | one automatic history row per call; the successes equal the success rows and the registration updates; the liked total equals the likes of the success rows |
| Scheduler.Dispatch | scheduler.py:79-172 | with no group nothing is called, written or sent; otherwise every id is called, one notification per user is followed by the admin report, which counts the users and every id once as a success or a failure |
| Scheduler.SendAutomaticLikes | scheduler.py:64-174 | with no usable key only the admin's notice; otherwise every active id is called once, and the run ends with an admin report counting them all, or sends nothing when there is none |
| Scheduler.DispatchCalls | scheduler.py:94-102 | the calls of a dispatch are every id of every group, exactly once, in order |
| Scheduler.DispatchMessages | scheduler.py:102-172 | user notifications for each group in order, carrying the answers to the calls one for one, then one admin report last, naming the number of users |
| Scheduler.DispatchFigures | scheduler.py:86-172 | the admin report's ids, its successes plus failures, the history rows and the calls are all the same number; its successes and likes match the history rows and the user notifications |
| Scheduler.KeyMissingAborts | scheduler.py:72-77 | with no usable key: exactly one message, to the admin, and no read of ids, no call and no store write |
| Scheduler.NoActiveIdsIsQuiet | scheduler.py:80-84 | with no active id, the ids are read and nothing else happens: no call, no write, no message |
| Scheduler.CycleCalls | scheduler.py:79-102 | a cycle with a key calls every active id exactly once, user by user |
| Scheduler.CycleMessages | scheduler.py:94-172 | one notification per user with active ids, in ascending user order, each listing that user's ids; the results they carry are, one for one, the service's answers to the calls made; then the admin report |
| Scheduler.CycleFigures | scheduler.py:169-172 | the report counts every active id, one history row each, and its successes plus failures are at least one, so the success rate divides by a non-zero number |
| Scheduler.CycleStats | scheduler.py:107-157 | applying the cycle's writes raises the statistics' sends, successes and likes by exactly the report's figures |
| Bot.AddIdCommand | bot.py:105-152 | a missing or non-digit id is answered with no store change; otherwise the user is registered if new (and the users table is otherwise unchanged) and the id added unless already active; the admin is told exactly when both the user and the id are new, with the escaped username or "N/A" |
| Bot.AddIdKeepsDigitIds | bot.py:120-134 | every registered id stays a non-empty digit string |
| Bot.AddIdTwice | bot.py:133-139 | repeating an accepted `/addid` changes nothing, returns the duplicate message and does not notify the admin again |
| Bot.IsAdmin | bot.py:29-31 | the caller is the admin exactly when their Telegram id is the configured one |
| Bot.LikeMessageFor | bot.py:296-313 | the reply is the success view, the partial view or the error template for the id, according to the outcome, each built from the response |
| Bot.LikeCommand | bot.py:239-315 | no argument, a non-digit id or no usable key means no call and no write; otherwise one call, classified as the scheduler classifies it, the scheduler's writes for that outcome with the history row marked manual, and the reply for that outcome |
| Bot.LikeAgreesWithCycle | bot.py:287-313 | for the same service answer, `/like` and the nightly cycle reach the same outcome and the same writes, the registration update included, differing only in the automatic flag |
| Bot.MaskKey | bot.py:406 | the first and the last eight characters of the key (all of it when shorter) around "..." |
| Bot.MaskHidesLongKeys | bot.py:405-416 | a key longer than sixteen characters cannot be read back from its mask, whose ninth character is never shown; a key longer than the mask is not contained in it |
| Bot.MaskShowsShortKeys | bot.py:406 | a key of at most eight characters is shown twice in full |
| Bot.MaskRevealsShortKeys | bot.py:406 | the mask as written gives back every key of at most sixteen characters |
| Bot.HidingMask | bot.py:405-416 | the corrected mask: the same as written for keys over sixteen characters, and fewer than half of a shorter key from each end |
| Bot.HidingMaskHides | bot.py:416 | no non-empty key can be read back from the corrected mask: the first character it withholds can be anything |
| Bot.SetKeyCommand | bot.py:344-383 | only the admin may set the key; after a save the key loads back stripped |
| Bot.CheckKeyCommand | bot.py:386-420 | only the admin sees anything; no usable key is reported as such; otherwise the key's mask as written (first and last eight characters) is shown |
| Bot.CheckKeyHiding | bot.py:386-420 | the corrected handler: the same replies, but a usable key is shown through the corrected mask; it answers exactly as the handler as written for non-admins, unusable keys and keys over sixteen characters |
| Bot.OnlyAdminTouchesKey | bot.py:29-31 | anyone but the admin can neither change the key nor see any of it |
| Bot.SetThenCheck | bot.py:360-406 | after the admin sets a key, checking shows the mask of the stripped key, or "not configured" when it strips to nothing |
| Bot.EncodeRemove | bot.py:223 | a removal button's data is "remove_" followed by the id |
| Bot.RemoveCallback | bot.py:693-726 | "remove_cancel" removes nothing; other "remove_" data has every "remove_" deleted and the rest deactivated for the caller only; any other data is ignored |
| Bot.RemoveRoundTrip | bot.py:709-713 | for a digit id, decoding its button's data gives the id back, and the data is never the cancel data |
| Bot.RemoveButtons | bot.py:215-229 | one button per listed id, with the id in its data and at most 30 characters of the player name (or of the id when the name is missing or empty) as its label, then the cancel button |
| Bot.NameOrId | bot.py:219 | a button's label is the player name unless it is missing or empty, then the id; it is empty only when the id is |
| Bot.ButtonRemovesItsId | bot.py:205-223 | pressing a user's k-th removal button removes exactly the k-th listed id |

## Left out

- Telegram transport, keyboards' emoji prefixes, message layout and `datetime.now()` timestamps: these are UI and clock effects. A message is kept as its recipient, kind and counted data. Timestamps are an opaque `now` parameter.
- The interleaving of calls, store writes and messages in time: the model keeps the order within each channel, not across channels.
- The HTTP request in `send_likes` and the dispatch on `requests` exception types: the answer comes from the `Api` oracle as a payload or as one of the three failure kinds.
- JSON values of unexpected types: `success` is an optional boolean and counts are optional integers. Python truthiness of other values and a `null` `likesAdded` compared with 100 are not modelled.
- SQL execution, the swallow-all `except` fallbacks (for example `add_game_id`'s error message and `remove_game_id`'s false result) and `save_key`'s write failure: these are I/O failures outside the model.
- `get_user_game_ids` orders by `added_at DESC`, a text sort of dd/mm/yyyy strings. Rows are kept in store order instead, because the order depends on clock strings.
- `get_all_active_game_ids` sorts by `telegram_id` only. Ids of one user are taken in row (insertion) order, which is what SQLite returns in practice but does not promise.
- The `last_24h` query and the float success-rate percentages of `get_stats`, `send_admin_report` and `/stats`: these are SQLite date semantics and floating point. The model proves only that the denominators are non-zero.
- APScheduler cron and timezone setup, `force_send` and the missing overlap guard: these are scheduling and concurrency.
- `get_all_users`, `/start`, `/menu`, `/help`, `/myids`, `/status`, `/listusers`, `/stats`, `/broadcast`, `/forcesend` and the menu callbacks: these are UI handlers without decision logic beyond the admin check.
- Text.IsDigits: `str.isdigit` also accepts non-ASCII digits. The model accepts ASCII digits only.
- Text.Strip: `str.strip` also removes non-ASCII whitespace such as U+0085 and U+00A0. The model strips the ASCII characters it removes (space, tab to carriage return, and U+001C to U+001F) only.
- `MIN_LIKES_REQUIRED` is the constant `Classification.MinLikesRequired` (100). config.py is otherwise constants and message texts.

## Findings

| source | as written | input that shows it | evidently intended | confidence | as-written member | corrected member |
|---|---|---|---|---|---|---|
| bot.py:406 | `/checkkey` shows the first and the last eight characters of the key, which cover the whole of a key of at most sixteen characters, while its reply (bot.py:416) says the full key is never displayed | the key "abcdefghij" is masked as "abcdefgh...cdefghij", from which it reads back whole | show at most eight characters from each end and always withhold at least one | medium; not executed | Bot.MaskRevealsShortKeys | Bot.CheckKeyHiding |

`Bot.CheckKeyCommand` and `Bot.SetThenCheck` model the handler as written. `Bot.CheckKeyHiding` is the corrected handler: it shows `Bot.HidingMask`, which `Bot.HidingMaskHides` proves withholds at least one character of every key, and it agrees with `Bot.CheckKeyCommand` on every key of more than sixteen characters.
