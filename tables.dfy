/**
 * The storage contract of db.js, with the database replaced by in-memory tables:
 * `config` keyed by guild, `users` keyed by (guild, user), `rumble_payouts` keyed by
 * (guild, source message) and the append-only `transactions` list.
 *
 * Each request the source sends is a function from the tables before it to its
 * reply and the tables after it. Whether the backend reports an error for that
 * request is a parameter (`fails`, or one flag per request): a failed request
 * returns its error and writes nothing.
 */
module Tables {
  import opened Results

  type GuildId = string
  type UserId = string
  type MessageId = string

  /** The columns of a `config` row that the payout handler reads. */
  datatype Config = Config(rumbleBotId: Option<UserId>, rumbleWinAmount: int)

  datatype UserKey = UserKey(guildId: GuildId, userId: UserId)

  /** A `users` row; only the balance column is read or written by the modelled code. */
  datatype UserRow = UserRow(balance: int)

  datatype PayoutKey = PayoutKey(guildId: GuildId, messageId: MessageId)

  /** A `rumble_payouts` row: who was paid for the message, and how much. */
  datatype Payout = Payout(winnerUserId: UserId, amount: int)

  /** A `transactions` row, stored as given. */
  datatype TxRow = TxRow(guildId: GuildId, userId: UserId, amount: int, reason: string)

  datatype DbError = RequestFailed | DuplicateKey

  /** The balance of a `users` row created by an upsert that names only the key columns. */
  const NewUserBalance: int := 0

  /**
   * The four tables, and the row the `config` table's column defaults give to a
   * guild that has none yet.
   */
  datatype DbState = DbState(
    configs: map<GuildId, Config>,
    users: map<UserKey, UserRow>,
    payouts: map<PayoutKey, Payout>,
    transactions: seq<TxRow>,
    configDefault: Config)

  /** A request's reply together with the tables after it. */
  datatype Reply<T> = Reply(result: Result<T, DbError>, after: DbState)

  function Empty(configDefault: Config): DbState {
    DbState(map[], map[], map[], [], configDefault)
  }

  /** The balance a user's row has, counting an absent row as a fresh one. */
  function BalanceOf(st: DbState, k: UserKey): int {
    if k in st.users then st.users[k].balance else NewUserBalance
  }

  /** The config row `getConfig` hands back for guild g when no request fails. */
  function ConfigFor(st: DbState, g: GuildId): Config {
    if g in st.configs then st.configs[g] else st.configDefault
  }

  /**
   * `getConfig`: read the guild's row; when there is none, insert one holding only
   * `guild_id` (the other columns take their defaults) and return it.
   */
  function GetConfig(st: DbState, g: GuildId, readFails: bool, insertFails: bool): Reply<Config> {
    if readFails then Reply(Err(RequestFailed), st)
    else if g in st.configs then Reply(Ok(st.configs[g]), st)
    else if insertFails then Reply(Err(RequestFailed), st)
    else Reply(Ok(st.configDefault), st.(configs := st.configs[g := st.configDefault]))
  }

  /** `getUserRow`: the row of (g, u), or None. It writes nothing. */
  function GetUserRow(st: DbState, g: GuildId, u: UserId, fails: bool): Result<Option<UserRow>, DbError> {
    if fails then Err(RequestFailed)
    else if UserKey(g, u) in st.users then Ok(Some(st.users[UserKey(g, u)]))
    else Ok(None)
  }

  /**
   * `upsertUserRow` (and the bare upsert of the payout handler): an upsert of the key
   * columns only, on conflict with (guild_id, user_id). An existing row keeps every
   * other column; a new row gets the defaults.
   */
  function UpsertUserRow(st: DbState, g: GuildId, u: UserId, fails: bool): Reply<UserRow> {
    var k := UserKey(g, u);
    if fails then Reply(Err(RequestFailed), st)
    else if k in st.users then Reply(Ok(st.users[k]), st)
    else Reply(Ok(UserRow(NewUserBalance)), st.(users := st.users[k := UserRow(NewUserBalance)]))
  }

  /**
   * The payout handler's `update({ balance }).eq(guild_id).eq(user_id)`: sets the
   * balance of the matching row; matching no row is not an error.
   */
  function UpdateBalance(st: DbState, g: GuildId, u: UserId, balance: int, fails: bool): Reply<()> {
    var k := UserKey(g, u);
    if fails then Reply(Err(RequestFailed), st)
    else if k in st.users then Reply(Ok(()), st.(users := st.users[k := st.users[k].(balance := balance)]))
    else Reply(Ok(()), st)
  }

  /** `insertTransaction`: appends the row to the log. */
  function InsertTransaction(st: DbState, row: TxRow, fails: bool): Reply<()> {
    if fails then Reply(Err(RequestFailed), st)
    else Reply(Ok(()), st.(transactions := st.transactions + [row]))
  }

  /** `hasRumblePaid`: whether a payout row exists for (g, m). It writes nothing. */
  function HasRumblePaid(st: DbState, g: GuildId, m: MessageId, fails: bool): Result<bool, DbError> {
    if fails then Err(RequestFailed) else Ok(PayoutKey(g, m) in st.payouts)
  }

  /**
   * `markRumblePaid`: inserts the payout row for (g, m). The key is unique, so an
   * insert for a key already present is refused by the storage layer.
   */
  function MarkRumblePaid(st: DbState, g: GuildId, m: MessageId, w: UserId, a: int, fails: bool): Reply<()> {
    var k := PayoutKey(g, m);
    if fails then Reply(Err(RequestFailed), st)
    else if k in st.payouts then Reply(Err(DuplicateKey), st)
    else Reply(Ok(()), st.(payouts := st.payouts[k := Payout(w, a)]))
  }

  // ---------------------------------------------------------------------------
  // Properties of the operations

  /** An existing config row is returned unchanged and nothing is written. */
  lemma GetConfigExisting(st: DbState, g: GuildId, readFails: bool, insertFails: bool)
    requires g in st.configs
    ensures GetConfig(st, g, readFails, insertFails).after == st
    ensures !readFails ==> GetConfig(st, g, readFails, insertFails).result == Ok(st.configs[g])
  {
  }

  /**
   * For a guild without a row, a successful `getConfig` inserts exactly one row, for
   * that guild, and returns it; a second call returns the same row and writes nothing.
   */
  lemma GetConfigCreatesOnce(st: DbState, g: GuildId, insertFails2: bool)
    requires g !in st.configs
    ensures var r := GetConfig(st, g, false, false);
      && r.result == Ok(st.configDefault)
      && r.after.configs.Keys == st.configs.Keys + {g}
      && |r.after.configs| == |st.configs| + 1
      && r.after.configs[g] == st.configDefault
      && (forall h :: h in st.configs ==> r.after.configs[h] == st.configs[h])
      && r.after == st.(configs := r.after.configs)
      && GetConfig(r.after, g, false, insertFails2) == Reply(r.result, r.after)
  {
  }

  /** `getConfig` fails exactly when a request it sends fails, and then writes nothing. */
  lemma GetConfigErrors(st: DbState, g: GuildId, readFails: bool, insertFails: bool)
    ensures var r := GetConfig(st, g, readFails, insertFails);
      && (r.result.Err? <==> readFails || (g !in st.configs && insertFails))
      && (r.result.Err? ==> r.after == st)
      && (r.result.Ok? ==> r.result.value == ConfigFor(st, g) && r.after.configs[g] == r.result.value)
  {
  }

  /** `getUserRow` reports the stored row of (g, u), or its absence. */
  lemma GetUserRowReads(st: DbState, g: GuildId, u: UserId, fails: bool)
    ensures var r := GetUserRow(st, g, u, fails);
      && (r.Err? <==> fails)
      && (r.Ok? ==> (r.value.Some? <==> UserKey(g, u) in st.users))
      && (r.Ok? && r.value.Some? ==> r.value.value == st.users[UserKey(g, u)])
  {
  }

  /**
   * After a successful upsert exactly one row exists for (g, u); an existing row,
   * balance included, is left as it was; only the `users` table can change; and a
   * second upsert changes nothing.
   */
  lemma UpsertUserRowIdempotent(st: DbState, g: GuildId, u: UserId, fails2: bool)
    ensures var r := UpsertUserRow(st, g, u, false);
      && UserKey(g, u) in r.after.users
      && r.result == Ok(r.after.users[UserKey(g, u)])
      && r.after.users.Keys == st.users.Keys + {UserKey(g, u)}
      && (UserKey(g, u) in st.users ==> r.after == st)
      && r.after.users[UserKey(g, u)].balance == BalanceOf(st, UserKey(g, u))
      && r.after == st.(users := r.after.users)
      && UpsertUserRow(r.after, g, u, fails2).after == r.after
  {
  }

  /** A failed upsert writes nothing. */
  lemma UpsertUserRowErrors(st: DbState, g: GuildId, u: UserId, fails: bool)
    ensures var r := UpsertUserRow(st, g, u, fails);
      && (r.result.Err? <==> fails)
      && (r.result.Err? ==> r.after == st)
  {
  }

  /** The balance update writes the balance of the (g, u) row and nothing else. */
  lemma UpdateBalanceWrites(st: DbState, g: GuildId, u: UserId, balance: int, fails: bool)
    ensures var r := UpdateBalance(st, g, u, balance, fails);
      && (r.result.Err? <==> fails)
      && r.after == st.(users := r.after.users)
      && r.after.users.Keys == st.users.Keys
      && (forall k :: k in st.users && k != UserKey(g, u) ==> r.after.users[k] == st.users[k])
      && (UserKey(g, u) in st.users ==>
            r.after.users[UserKey(g, u)].balance == if fails then st.users[UserKey(g, u)].balance else balance)
  {
  }

  /** `insertTransaction` appends exactly its row and changes nothing else. */
  lemma InsertTransactionAppends(st: DbState, row: TxRow, fails: bool)
    ensures var r := InsertTransaction(st, row, fails);
      && (r.result.Err? <==> fails)
      && |r.after.transactions| == |st.transactions| + (if fails then 0 else 1)
      && r.after.transactions[..|st.transactions|] == st.transactions
      && (!fails ==> r.after.transactions[|st.transactions|] == row)
      && r.after == st.(transactions := r.after.transactions)
  {
  }

  /** `hasRumblePaid` is true exactly when a payout row exists for (g, m). */
  lemma HasRumblePaidIff(st: DbState, g: GuildId, m: MessageId, fails: bool)
    ensures var r := HasRumblePaid(st, g, m, fails);
      && (r.Err? <==> fails)
      && (r == Ok(true) <==> !fails && PayoutKey(g, m) in st.payouts)
  {
  }

  /**
   * After a successful `markRumblePaid`, `hasRumblePaid` holds for (g, m), the row
   * carries the winner and the amount, and every other key answers as before.
   */
  lemma MarkThenHasRumblePaid(st: DbState, g: GuildId, m: MessageId, w: UserId, a: int, fails: bool,
                              g2: GuildId, m2: MessageId)
    ensures var r := MarkRumblePaid(st, g, m, w, a, fails);
      && (r.result.Ok? <==> !fails && PayoutKey(g, m) !in st.payouts)
      && (r.result.Err? ==> r.after == st)
      && (r.result.Ok? ==>
            && HasRumblePaid(r.after, g, m, false) == Ok(true)
            && r.after.payouts[PayoutKey(g, m)] == Payout(w, a)
            && r.after == st.(payouts := r.after.payouts)
            && (PayoutKey(g2, m2) != PayoutKey(g, m) ==>
                  HasRumblePaid(r.after, g2, m2, false) == HasRumblePaid(st, g2, m2, false)))
  {
  }
}
