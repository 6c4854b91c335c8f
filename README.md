# Rumble-winner payouts of the Capo Cash bot, modelled in Dafny

The bot listens to every message in the guilds it belongs to. When a message comes
from the guild's configured rumble bot, the bot reads the winner from the first user
mention, `<@id>` or `<@!id>`, in that message. It then credits the winner the guild's
`rumble_win_amount`. The winner's account is created on first reference. A
`rumble_payouts` row records that the message was paid, and a message with such a
row is skipped. The row is written last, so a run that fails before writing it may
already have credited the winner (see below).

The model has four modules:

- `Mention` (mention.dfy) models the regular expression `<@!?(\d{17,20})>` of
  index.js:48. `MatchesAt` reads the expression literally. `ExtractMention` is a
  left-to-right scan, proved to return the capture of the leftmost match and to
  return nothing when no match exists.
- `Tables` (tables.dfy) models the storage of db.js as four in-memory tables:
  - `config`, keyed by guild;
  - `users`, keyed by (guild, user);
  - `rumble_payouts`, keyed by (guild, source message);
  - the append-only `transactions` list.

  Each request is a function from the tables before it to its reply and the tables
  after it. Whether the backend reports an error for a request is a parameter. A
  failed request returns the error and writes nothing.
- `Db` (store.dfy) holds the same tables as fields of a `Store` class. Its methods
  update those fields in place, and each one is proved equal to its `Tables`
  function.
- `Rumble` (rumble.dfy) models the handler. `Handle` is the `messageCreate` handler
  as a function of the tables. `HandleMessage` and `CreditWinner` perform the same
  requests on a `Store`, in the same order. `Deliver` handles a sequence of
  messages one after another.

Handler behaviour the model keeps exactly as the code has it:

- Two writes in the handler go straight to the storage client, and the handler never
  checks their error results. These are the bare upsert of the winner
  (index.js:60-63) and the balance update (index.js:68-71).
- If the upsert fails and the winner has no row, `getUserRow` returns null. Reading
  `row.balance` then throws; this outcome is `Raised(NullUserRow)`.
- If the balance update fails, the handler still goes on to `markRumblePaid`. The
  message is then recorded as paid and the winner is never credited for it.
  `HandlePaid` states this case.
- If `markRumblePaid` fails (index.js:73), the balance has already been written but
  the message is not recorded. A second delivery of the same message then passes
  `hasRumblePaid` and credits the winner again. `MarkFailureCreditsAgain` states
  this: the first run is `Raised` with the balance at old + amount, and the second
  is `Paid` with the balance at old + 2 × amount. "At most once" in this model
  therefore means reported `Paid` at most once, not credited at most once.
- `insertTransaction` is imported (index.js:15) but never called on this path, so
  no `transactions` row is written (`HandleFrame`, `DeliverAppendsNoTransaction`).
  The code puts no lower bound on the balance either.

## Model

| member | source | states |
|---|---|---|
| Mention.MatchesAt | index.js:48 | the literal reading of `<@!?(\d{17,20})>` at a position: `<@`, an optional `!`, 17 to 20 ASCII digits, then `>`; MatchAt, Scan and ExtractMention are proved against it |
| Mention.MatchAt | index.js:48 | the match that starts at a given position, if any: the result is a capture of `<@!?(\d{17,20})>` at that position, and None means nothing matches there |
| Mention.Scan | index.js:48 | the first match at or after a position: it is a match, nothing before it matches, and None means no later position matches |
| Mention.ExtractMention | index.js:48-51 | the result is 17 to 20 ASCII digits and the capture of a leftmost match; None means no position of the text matches |
| Mention.MatchDeterministic | index.js:48 | a given position has at most one capture, so the greedy `\d{17,20}` has no choice to make |
| Mention.ExtractMentionIsLeftmost | index.js:48-51 | converse of ExtractMention: whatever the leftmost match captures is exactly what is returned |
| Mention.ExtractMentionAfterText | index.js:48-51 | a well-formed mention, with or without `!`, after text that holds no `<`, is extracted whatever follows it |
| Mention.ExtractMentionRejectsLongRun | index.js:48 | a mention of more than 20 digits is not a match, so nothing is extracted |
| Tables.GetConfig | db.js:14-33 | `getConfig`: select the guild's row, insert and return the defaults when it is missing, raise on either error; its contract is stated by GetConfigExisting, GetConfigCreatesOnce and GetConfigErrors |
| Tables.GetUserRow | db.js:35-44 | `getUserRow`: the (guild, user) row or null, raising on an error; its contract is stated by GetUserRowReads |
| Tables.UpsertUserRow | db.js:46-54 | the key-only upsert of `upsertUserRow` and of index.js:60-63; its contract is stated by UpsertUserRowIdempotent and UpsertUserRowErrors |
| Tables.UpdateBalance | index.js:68-71 | the bare balance update filtered on guild and user; its contract is stated by UpdateBalanceWrites |
| Tables.InsertTransaction | db.js:56-59 | `insertTransaction`: appends one row, raising on an error; its contract is stated by InsertTransactionAppends |
| Tables.HasRumblePaid | db.js:61-70 | `hasRumblePaid`: whether a payout row exists, raising on an error; its contract is stated by HasRumblePaidIff |
| Tables.MarkRumblePaid | db.js:72-82 | `markRumblePaid`: inserts the payout row, raising on an error; its contract is stated by MarkThenHasRumblePaid |
| Tables.GetConfigExisting | db.js:14-23 | `getConfig` returns the guild's existing row unchanged and writes nothing |
| Tables.GetConfigCreatesOnce | db.js:25-32 | for a guild without a row, `getConfig` inserts exactly one row (the defaults) for that guild and returns it; a second call returns the same row without inserting |
| Tables.GetConfigErrors | db.js:14-32 | `getConfig` fails exactly when its select fails, or when its insert fails for a missing row; a failure writes nothing; a success returns the row now stored |
| Tables.GetUserRowReads | db.js:35-44 | `getUserRow` writes nothing and returns the (guild, user) row, or absent; it fails exactly on a storage error |
| Tables.UpsertUserRowIdempotent | db.js:46-53 | after the upsert exactly one row exists for the key; an existing row, balance included, is untouched; a new row has balance 0; only `users` changes; a second upsert changes nothing |
| Tables.UpsertUserRowErrors | db.js:52 | a failed upsert returns the error and writes nothing |
| Tables.UpdateBalanceWrites | index.js:68-71 | the update writes only the balance of the matching row, creates no row and leaves every other row and table alone; a failure writes nothing |
| Tables.InsertTransactionAppends | db.js:56-59 | `insertTransaction` appends exactly its row and changes nothing else; on an error it appends nothing |
| Tables.HasRumblePaidIff | db.js:61-70 | `hasRumblePaid` is true iff a payout row exists for (guild, message), and fails only on a storage error |
| Tables.MarkThenHasRumblePaid | db.js:72-82 | after a successful `markRumblePaid`, `hasRumblePaid` holds for the key, the row carries the winner and amount, other keys answer as before; it fails on an error or an existing key and then writes nothing |
| Db.Store.GetConfig | db.js:14-33 | the in-place get-or-create leaves the store as `Tables.GetConfig` does and returns its reply; only `configs` may change |
| Db.Store.GetUserRow | db.js:35-44 | the read returns the stored row of (guild, user), or None exactly when there is no row, and changes nothing |
| Db.Store.UpsertUserRow | db.js:46-54 | the in-place upsert matches `Tables.UpsertUserRow`; only `users` may change |
| Db.Store.UpdateBalance | index.js:68-71 | the in-place balance update matches `Tables.UpdateBalance`; only `users` may change |
| Db.Store.InsertTransaction | db.js:56-59 | the in-place append matches `Tables.InsertTransaction`; only `transactions` may change |
| Db.Store.HasRumblePaid | db.js:61-70 | the read reports true exactly when a payout row exists and no error occurred, and changes nothing |
| Db.Store.MarkRumblePaid | db.js:72-82 | the in-place insert matches `Tables.MarkRumblePaid`; only `payouts` may change |
| Rumble.Handle | index.js:43-75 | the `messageCreate` listener, request by request; its contract is stated by HandleStages, HandleNoGuild, HandleNotRumbleBot, HandleNoMention, HandleAlreadyPaid, HandlePaid, HandlePays, HandleFrame and MarkFailureCreditsAgain |
| Rumble.Credit | index.js:53-73 | the listener from the paid check on, with the errors of the bare upsert and of the balance update ignored; its contract is stated by CreditFrame and CreditPaid |
| Rumble.Deliver | index.js:43 | the listener invoked once per delivered message, each on the tables the previous left, one outcome per message; its contract is stated by RecordedNeverPaid, PaidAtMostOnce and DeliverAppendsNoTransaction |
| Rumble.CreditFrame | index.js:53-73 | crediting writes only the winner's user row and the payout row of the message, and that payout row only on a paying run |
| Rumble.CreditPaid | index.js:58-73 | a paying crediting run records (guild, message) with winner and amount and leaves the winner's row holding old balance plus amount (unless the balance write failed) |
| Rumble.HandleStages | index.js:43-51 | a message without a guild changes nothing; otherwise `getConfig` writes at most the default config row, and the run either stops without paying or continues as the crediting run |
| Rumble.HandleNoGuild | index.js:44 | a message with no guild is ignored and leaves the whole store unchanged |
| Rumble.HandleNotRumbleBot | index.js:45-46 | if the author is not the configured rumble bot, nothing but `configs` changes, and `configs` either stays as it was or gains the default row of a guild that had none; the outcome is ignored, or raised on a failed config request |
| Rumble.HandleNoMention | index.js:48-49 | a message with no valid mention changes no balance and no payout record and is never paid |
| Rumble.HandleAlreadyPaid | index.js:53-56 | a message already recorded as paid changes no balance and no payout record; once it reaches the check, the outcome is Skipped |
| Rumble.HandlePaid | index.js:58-73 | a paying run credits the leftmost mention's user with the configured amount on top of the old balance (0 if absent), creates the account, records the payout, and writes no other user row; a failed balance write still records it |
| Rumble.HandlePays | index.js:43-75 | converse: a message from the bot that mentions a winner and is not yet paid is paid, unless one of the requests whose error is checked fails, or the bare upsert fails for a winner who has no row yet |
| Rumble.UpsertFaultRaises | index.js:60-66 | when the unchecked upsert fails for a winner who has no row, `getUserRow` returns null, reading its balance throws, and no balance or payout row is written |
| Rumble.HandleFrame | index.js:43-75 | no run appends a transaction; the only config write is the default row; only the winner's user row can change; payout rows are only added, and only by a paying run |
| Rumble.HandleAgainAfterPaid | index.js:53-73 | handling a paid message again, whatever its faults, changes nothing and does not pay, so the second run credits nothing (the first credited the amount, or nothing if its balance write failed) |
| Rumble.MarkFailureCreditsAgain | index.js:53-73 | when `markRumblePaid` fails after the balance write, the run is raised with the winner already credited and the message unrecorded, and a second delivery pays and credits again, to old + 2 × amount |
| Rumble.HandleKeepsRecord | index.js:53-73 | on one run, paying a message records its key, and a recorded key stays recorded and is not paid |
| Rumble.RecordedNeverPaid | index.js:53-56 | across any sequence of messages, a recorded (guild, message) stays recorded and is never paid |
| Rumble.PaidAtMostOnce | index.js:53-73 | across any sequence of messages, interleaved with others and with any storage faults, each (guild, message) is reported `Paid` at most once, and stays recorded after; a raised run may still have credited (MarkFailureCreditsAgain) |
| Rumble.DeliverAppendsNoTransaction | index.js:43-75 | however many messages are handled, the transaction log is unchanged |
| Rumble.HandleMessage | index.js:43-75 | the listener on a `Store` leaves it, and returns the outcome, exactly as `Handle` says |
| Rumble.CreditWinner | index.js:53-74 | the paid check, upsert, read, balance write and payout insert on a `Store` leave it, and return the outcome, exactly as `Credit` says |

## Left out

- commands.js: slash-command schema declarations only; the dangling `config` builder
  is not part of the exported array.
- Discord plumbing: client construction, intents, login and command registration
  (index.js:20-41, 77) are not modelled.
- The emoji reactions (index.js:54, 74) are not modelled. The outcomes `Skipped` and
  `Paid` stand for them.
- A failed reaction request is not modelled.
- A `Raised` outcome is an exception escaping the `async` listener, that is, an
  unhandled promise rejection. Whether the process survives it depends on Node's
  settings and is not modelled. `Deliver` goes on with the next message on the
  tables the raised run left, as a bot that kept running or was restarted would.
- Storage client setup and the environment-variable check (db.js:1-12) are not
  modelled; the query builder is replaced by in-memory tables.
- Concurrency: the model handles one message at a time. It does not capture the race
  between `hasRumblePaid` and `markRumblePaid` across awaits, where two deliveries
  of one message can both pass the check.
- `Number(...)` coercion (index.js:58, 66): amounts and balances are integers; NaN,
  floating point and non-numeric column values are not modelled.
- Columns the modelled code does not read. A `config` row holds only
  `rumble_bot_id` and `rumble_win_amount`; a `users` row holds only its balance.
- `TxRow`: the code passes any object to `insertTransaction`, and its columns are not
  defined in these files, so the model's row fields are a stand-in.
- Table schema: the `config` column defaults are not in these files. They are the
  `configDefault` value of the store. A new `users` row is assumed to have balance 0,
  and `rumble_bot_id` may be NULL (`None`), which never equals an author id.
- `Tables.MarkRumblePaid`: the model assumes a unique key on (guild, message) and
  refuses a second insert with `DuplicateKey`. The handler never reaches this case,
  because it checks `hasRumblePaid` first.
- `maybeSingle`/`single` errors for several matching rows cannot arise, because each
  table is keyed.
- The balance ledger, daily/weekly claims, give/take, coinflip/dice/slots, blackjack,
  sessions and leaderboards are not in these files and are not modelled.
