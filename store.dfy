/**
 * db.js as an object: the four tables are fields that each operation reads or
 * reassigns in place. Every method's new state and reply are those of the
 * matching function of module Tables, whose properties are proved there.
 */
module Db {
  import opened Results
  import opened Tables

  class Store {
    var configs: map<GuildId, Config>
    var users: map<UserKey, UserRow>
    var payouts: map<PayoutKey, Payout>
    var transactions: seq<TxRow>
    /** The row the `config` table's column defaults give a newly inserted guild. */
    const configDefault: Config

    /** The tables as one value. */
    function State(): DbState
      reads this
    {
      DbState(configs, users, payouts, transactions, configDefault)
    }

    constructor (configDefault: Config)
      ensures State() == Tables.Empty(configDefault)
    {
      this.configDefault := configDefault;
      configs, users, payouts, transactions := map[], map[], map[], [];
    }

    method GetConfig(g: GuildId, readFails: bool, insertFails: bool) returns (r: Result<Config, DbError>)
      modifies this`configs
      ensures Reply(r, State()) == Tables.GetConfig(old(State()), g, readFails, insertFails)
    {
      if readFails {
        return Err(RequestFailed);
      }
      if g in configs {
        return Ok(configs[g]);
      }
      if insertFails {
        return Err(RequestFailed);
      }
      var inserted := configDefault;
      configs := configs[g := inserted];
      return Ok(inserted);
    }

    method GetUserRow(g: GuildId, u: UserId, fails: bool) returns (r: Result<Option<UserRow>, DbError>)
      ensures r == Tables.GetUserRow(State(), g, u, fails)
      ensures r.Ok? && r.value.Some? ==> UserKey(g, u) in users && r.value.value == users[UserKey(g, u)]
      ensures r == Ok(None) <==> !fails && UserKey(g, u) !in users
    {
      if fails {
        return Err(RequestFailed);
      }
      var k := UserKey(g, u);
      if k in users {
        return Ok(Some(users[k]));
      }
      return Ok(None);
    }

    method UpsertUserRow(g: GuildId, u: UserId, fails: bool) returns (r: Result<UserRow, DbError>)
      modifies this`users
      ensures Reply(r, State()) == Tables.UpsertUserRow(old(State()), g, u, fails)
    {
      if fails {
        return Err(RequestFailed);
      }
      var k := UserKey(g, u);
      if k !in users {
        users := users[k := UserRow(NewUserBalance)];
      }
      return Ok(users[k]);
    }

    method UpdateBalance(g: GuildId, u: UserId, balance: int, fails: bool) returns (r: Result<(), DbError>)
      modifies this`users
      ensures Reply(r, State()) == Tables.UpdateBalance(old(State()), g, u, balance, fails)
    {
      if fails {
        return Err(RequestFailed);
      }
      var k := UserKey(g, u);
      if k in users {
        users := users[k := users[k].(balance := balance)];
      }
      return Ok(());
    }

    method InsertTransaction(row: TxRow, fails: bool) returns (r: Result<(), DbError>)
      modifies this`transactions
      ensures Reply(r, State()) == Tables.InsertTransaction(old(State()), row, fails)
    {
      if fails {
        return Err(RequestFailed);
      }
      transactions := transactions + [row];
      return Ok(());
    }

    method HasRumblePaid(g: GuildId, m: MessageId, fails: bool) returns (r: Result<bool, DbError>)
      ensures r == Tables.HasRumblePaid(State(), g, m, fails)
      ensures r == Ok(true) <==> !fails && PayoutKey(g, m) in payouts
      ensures r == Ok(false) <==> !fails && PayoutKey(g, m) !in payouts
    {
      if fails {
        return Err(RequestFailed);
      }
      return Ok(PayoutKey(g, m) in payouts);
    }

    method MarkRumblePaid(g: GuildId, m: MessageId, w: UserId, a: int, fails: bool) returns (r: Result<(), DbError>)
      modifies this`payouts
      ensures Reply(r, State()) == Tables.MarkRumblePaid(old(State()), g, m, w, a, fails)
    {
      if fails {
        return Err(RequestFailed);
      }
      var k := PayoutKey(g, m);
      if k in payouts {
        return Err(DuplicateKey);
      }
      payouts := payouts[k := Payout(w, a)];
      return Ok(());
    }
  }
}
