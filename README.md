# Key-distribution bot: a Dafny model

This project models the core of `verify_key_bot.py`, a Telegram bot that hands out licence keys.

- A user must belong to every channel an operator registers.
- Keys are given out one at a time, oldest first, at most once per cooldown period.
- The operator fills the key pool from a one-shot admin menu.

The SQLite tables become fields of a `Database` class:

- `channels`, with an id counter;
- `users`, a map from user id to row;
- `keys` and `sales`, sequences whose ids are dense;
- `settings`, a string map.

The module-level `awaiting_keys` dictionary becomes the `AdminSessions` class. Three of the bot's inputs become parameters: the clock is an integer (seconds), Telegram's `get_chat_member` is a membership oracle, and the chat and message ids of the delivered message are given.

Modules, in dependency order:

| module | what it holds |
|---|---|
| `Wrappers` | `Option` |
| `Strings` | Python's `strip`, `split`, `'sep'.join`, ASCII `lower`, `lstrip(c)` and `replace` on `seq<char>` |
| `Numbers` | `int()` (the whitespace it skips, an optional sign, ASCII digits) and `str()` of an integer |
| `Markdown` | `escape_markdown` and the three `{key}`/`{days}`/`{user}` replacements of the key-message template |
| `Channels` | handle normalisation and the channel registry |
| `Ledger` | the `users` rows, the settings table and the cooldown rule of `can_claim_key` |
| `KeyPool` | the `keys` and `sales` rows, `get_next_key`, marking a key used, and the bulk-upload line format |
| `Verifier` | the fail-fast membership loop of `is_user_verified` |
| `Store` | class `Database`, one method per database helper, and the consistency invariant linking keys, users and sales |
| `Bot` | `is_admin`, the operator sessions, `handle_admin_input`, `cb_verify`, the statistics and `cb_start_claim` |

The consistency invariant `Store.ClaimsConsistent` is kept by every method that changes the database. It says:

- every sale records a used key of the pool, with that key's text and expiry, for a known user;
- no key is sold twice;
- there are exactly as many sales as used keys;
- each user's `last_key_time` is the time of their latest sale.

Three behaviours of the code a reader might not expect:

- A claim never reads the `verified` flag. `Bot.DecideIgnoresVerified` proves the decision does not depend on it.
- The cooldown refusal reports the configured `cooldown_hours`, not the hours that remain.
- A claim is not one transaction. `assign_key_to_user` commits its three writes together (line 184), but the key is chosen by `get_next_key` (line 251) in an earlier, separate read, and nothing serialises two claims of the same user.

## Model

| member | source | states |
|---|---|---|
| Markdown.EscapeMarkdown | verify_key_bot.py:37-42 | empty text escapes to empty text; the output is as long as the input plus its number of special characters |
| Markdown.UnescapeEscape | verify_key_bot.py:41-42 | dropping the backslash in front of each escaped character gives the input back, so every other character is copied unchanged |
| Markdown.EscapeGuardsSpecials | verify_key_bot.py:41-42 | every special character of the output has a backslash right before it |
| Markdown.EscapeConcat | verify_key_bot.py:42 | escaping works character by character: escaping a concatenation concatenates the escapes |
| Markdown.EscapeStartsPlain | verify_key_bot.py:42 | escaped text never begins with a special character |
| Markdown.RenderFillsPlaceholders | verify_key_bot.py:258-263 | for a template whose literal text has no braces, the chained replaces put the escaped key, days and first name exactly where `{key}`, `{days}` and `{user}` stood, and no inserted value is taken for a later placeholder |
| Markdown.RenderKeyMessage | verify_key_bot.py:259-263 | a template without `{` is sent as written |
| Markdown.ReplaceEscaped | verify_key_bot.py:263 | replacing a placeholder inside escaped text changes nothing, because escaping puts a backslash before every brace |
| Markdown.PassOverLayout | verify_key_bot.py:263 | one replace pass over a laid-out template acts on each placeholder value separately and leaves brace-free literal text alone |
| Strings.StripIdempotent | verify_key_bot.py:109 | `strip()` applied twice is `strip()` applied once |
| Strings.JoinSplit | verify_key_bot.py:418 | joining the pieces of a `split(sep)` with `sep` gives the text back |
| Strings.SplitJoin | verify_key_bot.py:422 | splitting pieces that are free of the separator, joined with it, gives the pieces back |
| Strings.LStripRepeat | verify_key_bot.py:104 | `lstrip('@')` removes exactly the leading run of `@` in front of text that does not start with `@` |
| Strings.LStripLowerSplit | verify_key_bot.py:104 | converse of LStripRepeat after `lower()`: a name whose lower case, stripped of leading `@`, is `t` is some `@` followed by a name whose lower case is `t` |
| Strings.ReplaceConcat | verify_key_bot.py:263 | `replace` distributes over a concatenation when no occurrence straddles the join |
| Numbers.ParseIntToString | verify_key_bot.py:404-405 | `int(str(n)) == n` for every integer, so a stored cooldown reads back as the number typed |
| Numbers.ParseIntIgnoresSpaces | verify_key_bot.py:426 | `int()` accepts digits surrounded by the whitespace it skips (`str.isspace()` without U+001C to U+001F) and returns their value |
| Numbers.ParseInt | verify_key_bot.py:426 | a text is accepted if and only if, once the whitespace `int()` skips is removed from both ends, it is an optional `+` or `-` followed by at least one ASCII digit; the value is that of the digits, negated after `-` |
| Numbers.ParseIntStrip | verify_key_bot.py:422-426 | text that `int()` accepts gives the same value after `strip()`, so reading a stripped field agrees with reading it raw whenever the raw text parses |
| Numbers.NotStripBlind | verify_key_bot.py:404 | the converse fails: a separator U+001C to U+001F before a number is removed by `strip()`, but `int()` rejects the text, so a cooldown typed that way is refused |
| Channels.NormalizeHandle | verify_key_bot.py:109-111 | the handle is the stripped name, prefixed with `@` exactly when the stripped name lacks one; the result is stripped, non-empty and starts with `@` |
| Channels.CanonicalIffFixed | verify_key_bot.py:109-111 | a handle is canonical if and only if normalising it leaves it unchanged |
| Channels.NormalizeIdempotent | verify_key_bot.py:109-111 | normalising twice is normalising once |
| Channels.RemoveHandle | verify_key_bot.py:125 | the DELETE never adds rows; RemoveHandleMembers gives exactly which remain |
| Channels.RemoveHandleMembers | verify_key_bot.py:125 | after `DELETE ... WHERE username=h` the rows are exactly the old rows whose handle is not `h` |
| Channels.RemoveDropsHandle | verify_key_bot.py:125 | no row with the deleted handle remains |
| Channels.RemoveAbsent | verify_key_bot.py:125 | deleting a handle that is not registered leaves the registry unchanged |
| Channels.RemoveKeepsValid | verify_key_bot.py:47-50 | deleting keeps ids ascending, handles unique and canonical, and ids below the counter |
| Channels.AppendKeepsValid | verify_key_bot.py:47-50 | appending a new canonical handle with the next id keeps the registry valid |
| Store.Database.AddChannel | verify_key_bot.py:108-118 | returns true exactly when the normalised handle is new, and then appends it with the next id; a duplicate (the UNIQUE constraint) returns false and changes nothing; other tables unchanged |
| Store.Database.InsertChannel | verify_key_bot.py:114 | the INSERT: one row with the next id, registry still valid |
| Store.Database.RemoveChannel | verify_key_bot.py:120-127 | always returns true; the registry loses exactly the normalised handle; other tables unchanged |
| Store.Database.ListChannels | verify_key_bot.py:129-133 | the handles in id order (the registry's order), distinct and canonical |
| Ledger.EnsureUser | verify_key_bot.py:95-99 | afterwards the user has exactly one row, with the current username; `verified` and `last_key_time` are kept for an existing row and default for a new one; other rows unchanged |
| Ledger.EnsureUserIdempotent | verify_key_bot.py:95-99 | enrolling twice is enrolling once |
| Store.Database.EnsureUserRecord | verify_key_bot.py:95-99 | the users table becomes `EnsureUser` of the old one; everything else unchanged; the invariants hold |
| Ledger.SetVerified | verify_key_bot.py:150-153 | only that user's `verified` becomes true; a missing row makes the update a no-op |
| Ledger.SetVerifiedIdempotent | verify_key_bot.py:150-153 | marking twice is marking once |
| Store.Database.MarkVerified | verify_key_bot.py:150-153 | the users table becomes `SetVerified` of the old one; everything else unchanged |
| Store.Database.SetSetting | verify_key_bot.py:90-93 | `INSERT OR REPLACE`: the settings map gets the key set to the value; everything else unchanged |
| Ledger.GetSetting | verify_key_bot.py:84-88 | the stored value when the key has a row, the default otherwise |
| Ledger.SettingWriteRead | verify_key_bot.py:84-93 | reading a key after `set_setting` gives the value written; every other key reads as before |
| Ledger.CooldownHours | verify_key_bot.py:156-157 | an absent or empty setting gives 48 hours; otherwise the hours are what `int()` reads from the stored text |
| Ledger.CanClaim | verify_key_bot.py:155-166 | a user without a claim time may claim; a claim made at `now` blocks a positive cooldown; a cooldown of zero or less never blocks a past claim |
| Ledger.SetLastKeyTime | verify_key_bot.py:179 | only that user's `last_key_time` changes, to the given time; a missing row makes the update a no-op |
| Ledger.CooldownStored | verify_key_bot.py:156-157 | storing `str(hours)` makes the cooldown exactly `hours` and keeps the setting readable |
| Ledger.CanClaimMonotone | verify_key_bot.py:161-166 | waiting longer never turns an allowed claim into a refused one |
| Ledger.ClaimWindow | verify_key_bot.py:163-165 | after a claim at `t` the next claim is allowed exactly when `now - t >= cooldown_hours` hours |
| Ledger.ClaimTimeIsPerUser | verify_key_bot.py:159 | recording one user's claim does not change whether another user may claim |
| Ledger.EnrollmentKeepsEligibility | verify_key_bot.py:243-245 | the enrolment done before the cooldown check does not change its answer |
| Verifier.Check | verify_key_bot.py:135-148 | "no channels" exactly when the registry is empty; a refusal names a registered channel |
| Verifier.Scan | verify_key_bot.py:140-148 | the loop over a non-empty list: a refusal names a channel of the list, "not admin" only when its lookup raised, "not joined" only when its status is not member, administrator or creator |
| Verifier.Reply | verify_key_bot.py:137-148 | the flag is true exactly for the two passing verdicts; the message is empty exactly when there are no channels |
| Verifier.PassedIffAllPass | verify_key_bot.py:135-148 | verified if and only if every registered channel reports member, administrator or creator |
| Verifier.FailureNamesFirst | verify_key_bot.py:140-147 | a refusal names the first failing channel; it says "not admin" exactly when that lookup raised; the loop made exactly the lookups up to that channel |
| Verifier.SuccessProbesAll | verify_key_bot.py:140-148 | when verified, every channel was looked up once |
| Verifier.ShortCircuit | verify_key_bot.py:140-147 | no later channel is consulted: two oracles that agree on the channels looked up give the same verdict |
| Verifier.IsUserVerified | verify_key_bot.py:135-148 | the loop returns the verdict `Check` defines and the channels it looked up, which are the prefix `Probes` counts |
| Bot.Verify | verify_key_bot.py:231-239 | enrols the user; marks them verified exactly when the verdict passes; returns `is_user_verified`'s reply; nothing else changes |
| Bot.VerifiedIffAllPass | verify_key_bot.py:231-239 | afterwards the user is verified exactly when every channel passes or they were verified before |
| KeyPool.NextKey | verify_key_bot.py:168-172 | none exactly when every key is used; otherwise an unused key of the pool whose id is the smallest among unused keys |
| KeyPool.NextKeyIsFirstUnused | verify_key_bot.py:170 | the key chosen is the first unused key in insertion order |
| KeyPool.ClaimTakesFirst | verify_key_bot.py:178 | marking the chosen key used removes exactly the head of the unused ids |
| KeyPool.ClaimsAreFifo | verify_key_bot.py:168-184 | `n` successive claims take the first `n` unused keys in insertion order, and stop when the pool runs dry |
| KeyPool.ClaimsTakeUnused | verify_key_bot.py:168-184 | the induction behind ClaimsAreFifo: the claimed ids are `Take` of the unused ids |
| KeyPool.TakeIsPrefix | verify_key_bot.py:170 | `Take(u, n)` is the prefix of `u` whose length is the smaller of `n` and the length of `u` |
| KeyPool.ThreeClaimsInOrder | verify_key_bot.py:168-184 | three fresh keys K1, K2, K3, inserted in that order, are handed out as K1, then K2, then K3 |
| KeyPool.MarkUsed | verify_key_bot.py:178 | the pool keeps its length |
| KeyPool.MarkUsedOnlyFlag | verify_key_bot.py:178 | a row is used afterwards exactly when it was used or has the given id; no other column changes |
| KeyPool.MarkUsedCounts | verify_key_bot.py:178 | marking an unused key with a unique id raises the used count by exactly one |
| KeyPool.MarkUsedAbsent | verify_key_bot.py:178 | marking an id that no key has changes nothing |
| KeyPool.CountsAddUp | verify_key_bot.py:297-303 | used plus unused keys is the number of keys |
| Store.SaleRow | verify_key_bot.py:175-183 | the sale is assigned at `now`, is active, and expires `duration_days` days later |
| Store.Database.AssignKeyToUser | verify_key_bot.py:174-184 | the key is marked used, the user's `last_key_time` becomes `now`, one sale row is appended with the next id; nothing else changes; consistency is kept when the key is an unused key of the pool with that text and duration |
| Store.AssignKeepsConsistent | verify_key_bot.py:174-184 | the three effects of an assignment together keep the consistency invariant |
| Store.InsertKeepsConsistent | verify_key_bot.py:429-432 | appending unused keys keeps the consistency invariant |
| Store.EnsureKeepsConsistent | verify_key_bot.py:95-99 | enrolling keeps the consistency invariant |
| Store.SetVerifiedKeepsConsistent | verify_key_bot.py:150-153 | marking verified keeps the consistency invariant |
| Store.LastClaimHasSale | verify_key_bot.py:179-183 | a user with a claim time has a sale of a used key |
| Store.DenseIdsDistinct | verify_key_bot.py:58 | autoincrement ids (1, 2, 3, ...) ascend along the pool |
| Store.EmptyConsistent | verify_key_bot.py:44-82 | the freshly created, empty tables are consistent |
| Store.Database.constructor | verify_key_bot.py:44-82 | `init_db`: every table empty, the channel counter at 1, the invariants hold |
| KeyPool.ParseKeyLine | verify_key_bot.py:422-428 | a line yields a key if and only if it has at least two bar-separated fields and the second parses as an integer |
| KeyPool.OneFieldLine | verify_key_bot.py:422-423 | a line without a bar is skipped |
| KeyPool.TwoFieldLine | verify_key_bot.py:422-428 | `a\|b` with bar-free fields, whose `b` reads as `v`, gives the key `strip(a)` for `v` days, with no name and no link |
| KeyPool.FourFieldLine | verify_key_bot.py:422-428 | `a\|b\|c\|d` with bar-free fields, whose `b` reads as `v`, gives the key `strip(a)` for `v` days, named `strip(c)`, linked to `strip(d)` |
| KeyPool.JoinedLine | verify_key_bot.py:422-428 | any line of two or more bar-free fields whose second reads as `v` gives the stripped first field as key text, `v` days, and the stripped third and fourth fields when present |
| KeyPool.ParseKeyLinesAppend | verify_key_bot.py:421-435 | a batch yields what its parts yield, in order, so a bad line never aborts the rest |
| KeyPool.ParsedCount | verify_key_bot.py:433 | the batch yields exactly as many keys as it has accepted lines |
| KeyPool.FormatParse | verify_key_bot.py:284-285 | every key written as key, days, name and link joined by bars without spaces (the last two optional) is read back as written; TwoFieldLine and FourFieldLine cover the announced form with spaces around the bars |
| KeyPool.ExampleBatch | verify_key_bot.py:417-438 | two written keys around a line whose duration field is `notanumber` give those two keys, in order |
| KeyPool.SampleBatch | verify_key_bot.py:417-438 | the lines `K1\|30`, `BAD\|notanumber` and `K2\|7\|Label\|http://x` give two keys, `K1` for 30 days, then `K2` for 7 days with name `Label` and link `http://x` |
| KeyPool.ExampleLine3 | verify_key_bot.py:422-428 | the line `K2\|7\|Label\|http://x` gives the key `K2` for 7 days, named `Label`, linked to `http://x` |
| KeyPool.ExampleLine2 | verify_key_bot.py:425-435 | the line with fields `BAD` and `notanumber` is skipped |
| KeyPool.NewKeyRowsAt | verify_key_bot.py:429-432 | the i-th inserted row has the next id after i earlier ones, the i-th accepted line's fields, used = 0 and `added_at = now` |
| KeyPool.NewKeyRowsAppend | verify_key_bot.py:429-432 | inserting two batches one after the other is inserting them together |
| KeyPool.AppendBatchRows | verify_key_bot.py:429-432 | inserted rows continue the dense ids and none of them is used |
| Store.Database.InsertKeys | verify_key_bot.py:429-436 | the pool grows by exactly the new rows, with the next ids; other tables unchanged; the invariants hold |
| Bot.ParseBatch | verify_key_bot.py:418-435 | the loop keeps the keys of the accepted lines, in order, and `added` counts them |
| Bot.AddKeyBatch | verify_key_bot.py:417-437 | the pool grows by the rows of the accepted lines of the stripped, newline-split text; `added` is their number; other tables unchanged |
| Bot.HandleAdminInput | verify_key_bot.py:383-438 | the sender's mode is deleted (after the reply, which is taken to succeed) and no other sender's mode changes; the channel counter moves only when -1 adds a new channel; -1 adds the channel and reports whether it was new; -2 removes it; -3 stores `str(int(text))` only when the text parses, and otherwise reports an invalid number and changes nothing; -4 stores the message; any other code is a bulk upload |
| Bot.CooldownInputTakesEffect | verify_key_bot.py:402-405 | after a valid cooldown input the cooldown is the number typed |
| Bot.IsAdmin | verify_key_bot.py:101-106 | the configured id is the administrator whatever the username; with another id, a missing or empty username never is |
| Bot.AdminName | verify_key_bot.py:104 | `ADMIN_USERNAME.lower().lstrip('@')` is `tgshaitaan` |
| Bot.AdminByName | verify_key_bot.py:101-106 | any case mix of `tgshaitaan` behind any number of `@` is the administrator |
| Bot.AdminNameOnly | verify_key_bot.py:104 | and, with another id, nothing else is: a passing username is some `@` followed by `tgshaitaan` in some case |
| Bot.ModeOf | verify_key_bot.py:281 | the stored codes are 30 (add keys), -1, -2, -3 and -4 (lines 316, 328, 353, 365) |
| Bot.ModeOfInjective | verify_key_bot.py:281 | distinct menu entries store distinct codes |
| Bot.AdminSessions.Select | verify_key_bot.py:277-281 | the mode is stored only when `is_admin` passes; otherwise the map is unchanged; every stored mode stays one of the menu codes |
| Bot.SelectionsAreAdmins | verify_key_bot.py:279-281 | when only administrators hold modes, a selection keeps it so |
| Bot.StatsOf | verify_key_bot.py:292-303 | the total is the number of keys and the user count is the number of users |
| Bot.StatsUsedAreSales | verify_key_bot.py:297-303 | with consistent tables the used count is the number of sales and the unused count the rest |
| Bot.KeyMessage | verify_key_bot.py:258-271 | no template, or an empty one, gives the default message; a set template without `{` is sent as written |
| Bot.CustomMessageFilled | verify_key_bot.py:258-263 | a non-empty template of literal text and placeholders is delivered with the escaped values in place |
| Bot.Decide | verify_key_bot.py:241-256 | the cooldown is refused exactly when the user is inside it, whether or not keys remain, and reports the configured hours; "no keys" exactly when allowed and `NextKey` finds none (every key is used); otherwise the key `NextKey` picks (the unused key with the smallest id) with the configured message |
| Bot.DecideIgnoresVerified | verify_key_bot.py:241-256 | the outcome does not depend on the `verified` flag or on the username |
| Bot.DecideAfterEnrol | verify_key_bot.py:243 | deciding after the enrolment gives the same outcome as deciding before it |
| Bot.StartClaim | verify_key_bot.py:241-275 | the outcome is the decision on the state found; a claim marks the key used, sets the claim time and appends the sale; a refusal changes nothing but the enrolment; channels and settings unchanged; the invariants hold |
| Bot.ClaimEnrolled | verify_key_bot.py:245-274 | the same, for a user who already has a row |
| Bot.RecordClaim | verify_key_bot.py:274 | recording an unused key of the pool keeps the invariants and makes the three changes of an assignment |
| Bot.ClaimStartsCooldown | verify_key_bot.py:245-274 | after a claim at `now`, the same user is refused at `later` exactly when fewer than `cooldown_hours` hours have passed |

## Left out

- Telegram I/O is not modelled: sending messages, callback answers, keyboards (`build_start_verify_keyboard`, `build_admin_keyboard`), and the texts of `cmd_start`, `cmd_admin` and the admin prompts. The chat and message ids of the delivered message are parameters.
- The failure of `message.answer` is not modelled: every reply is taken to be delivered. In `cb_start_claim` a failed send (line 273) would skip `assign_key_to_user`. In `handle_admin_input` the mode is deleted only after the reply (lines 394, 400, 409, 415, 438), so a reply that raises leaves the mode set; for instance a cooldown of `-5` is stored at line 405 and then sent unescaped in MarkdownV2 at line 406. The model always deletes the mode.
- Store.Database.AssignKeyToUser: the `OverflowError` of `timedelta(days=duration_days)` at line 176, for an expiry outside years 1 to 9999 (beyond about +2.9 million or −0.74 million days from now), is not modelled. In the source the key message is already sent, nothing is written and the key stays unused; the model records the claim.
- Bot.StartClaim, Bot.ClaimEnrolled, Bot.RecordClaim: the same line-176 overflow is not modelled; for such a duration the model records the claim where the source raises after sending the key.
- Ledger.CanClaim: the `OverflowError` of `timedelta(hours=cooldown_hours)` at line 164, for a cooldown beyond about 2.4e10 hours in absolute value, is not modelled; line 404 accepts such values.
- Numbers.ParseInt: CPython's limit of 4300 digits for `int()` of text is not modelled; longer digit strings parse here and raise `ValueError` in the source.
- `bot.get_chat_member` is a total function parameter. Its exception is the `LookupFailed` value, and the logging in the except branch is left out.
- The SQLite mechanics are left out (connections, SQL text, commits). `init_db` is the constructor with empty tables.
- `add_channel`'s bare `except` is modelled only for the UNIQUE violation. No other database error is modelled.
- Timestamps are integer seconds. The ISO-8601 text of `last_key_time`, `added_at`, `assigned_at` and `expires_at` is not modelled, and neither is `datetime.fromisoformat`.
- One `now` stamps a whole bulk upload, where the source calls `datetime.now()` per row.
- The bulk upload inserts its rows at the commit after the loop, in one step. Inside the source's single transaction the rows are invisible until then, and `KeyPool.NewKeyRowsAppend` shows that inserting row by row gives the same table.
- Concurrency is not modelled: events are handled one at a time, and the race between `get_next_key` and `assign_key_to_user` is not represented.
- The HTTP liveness server, logging, dotenv, the polling executor and the start-up hook are left out.
- `message.text` being `None` (a non-text message) is not modelled.
- The handler-registration priority between `handle_admin_input` and the command handlers is not modelled.
- `ParseInt` stands for Python's `int()` restricted to the whitespace it skips, an optional sign and ASCII digits. Underscores and non-ASCII digits are not accepted.
- `Lower` covers ASCII letters only. Python's full Unicode case mapping is not modelled.
- Neither the durations (line 426) nor the cooldown (line 404) are checked for being positive, exactly as in the source.
- Store.Database.InsertKeys, Bot.AddKeyBatch, Bot.HandleAdminInput: SQLite's 64-bit INTEGER range is not modelled. In the source, a line whose duration `int()` accepts but which lies outside −2^63 to 2^63−1 (such as `K|99999999999999999999`) makes the INSERT at line 429 raise `OverflowError`. `except ValueError` at line 434 does not catch it, so the commit at line 436 never runs and the rows already inserted from the batch are lost. The reply at line 437 is not sent, and the mode deletion at line 438 does not happen, so the operator stays in bulk mode. The model inserts every accepted line, replies with the count and deletes the mode.
- The cooldown setting is assumed to hold absent, empty or integer text (`CooldownSettingValid`). The only writer keeps this true (`Bot.HandleAdminInput`). Text that `int()` rejects would raise inside `can_claim_key`, and that path is not modelled.
- Markdown.RenderFillsPlaceholders: only for templates whose literal text contains no braces. With braces in the literal text, a replacement can create a new placeholder out of the surrounding text.
- KeyPool.FormatParse: proves formatting then parsing only. Parsing then formatting does not give the line back, because spaces around fields and leading zeros or a `+` in the duration are lost.
- The reply texts of `handle_admin_input`, `cb_verify` and `cb_start_claim` are replaced by the outcome values `AdminReply`, `Verdict` and `ClaimOutcome`. `is_user_verified`'s own two-part reply is kept (`Verifier.Reply`).
- The display reads in `cb_admin_set_cooldown` (line 354), `cb_admin_set_key_msg` (line 366) and `cb_admin_list_channels` are not modelled. They only read settings or list channels for a reply.
