/**
 * The `messageCreate` handler of index.js: a message posted by the guild's rumble
 * bot names the winner in its first user mention, and the winner is credited the
 * guild's `rumble_win_amount`; a message id recorded as paid is not paid again.
 *
 * `Handle` is the handler as a function of the tables, `HandleMessage` the same
 * steps performed on a `Db.Store`; `Deliver` handles a sequence of messages one at
 * a time, each to completion before the next.
 */
module Rumble {
  import opened Results
  import opened Tables
  import opened Mention
  import Db

  datatype Message = Message(id: MessageId, guildId: Option<GuildId>, authorId: UserId, content: string)

  /** For each storage request the handler may send, whether the backend reports an error. */
  datatype Faults = Faults(
    configRead: bool,
    configInsert: bool,
    paidRead: bool,
    userUpsert: bool,
    userRead: bool,
    balanceUpdate: bool,
    payoutInsert: bool)

  const NoFaults := Faults(false, false, false, false, false, false, false)

  datatype Ignore = NoGuild | NotRumbleBot | NoMention

  /** Why the handler stopped with an exception. */
  datatype Failure =
    | Storage(error: DbError)
    | NullUserRow  // `row.balance` read on the null of `getUserRow`

  /**
   * How a message was handled: ignored silently, skipped as already paid (the ⏭️
   * reaction), paid (the 💸 reaction), or stopped by an exception.
   */
  datatype Outcome =
    | Ignored(reason: Ignore)
    | Skipped
    | Paid(winner: UserId, amount: int)
    | Raised(failure: Failure)

  datatype Run = Run(outcome: Outcome, after: DbState)

  /** The user row a message's mention designates, if the message has a guild and a mention. */
  function WinnerKeys(msg: Message): set<UserKey> {
    match (msg.guildId, ExtractMention(msg.content))
    case (Some(g), Some(w)) => {UserKey(g, w)}
    case _ => {}
  }

  /**
   * The handler, request by request: the guild, author and mention filters, then
   * the crediting of the winner.
   */
  function Handle(st: DbState, msg: Message, f: Faults): Run {
    if msg.guildId.None? then Run(Ignored(NoGuild), st)
    else
      var g := msg.guildId.value;
      var cfg := GetConfig(st, g, f.configRead, f.configInsert);
      if cfg.result.Err? then Run(Raised(Storage(cfg.result.error)), cfg.after)
      else if cfg.result.value.rumbleBotId != Some(msg.authorId) then Run(Ignored(NotRumbleBot), cfg.after)
      else
        var mention := ExtractMention(msg.content);
        if mention.None? then Run(Ignored(NoMention), cfg.after)
        else Credit(cfg.after, g, msg.id, mention.value, cfg.result.value.rumbleWinAmount, f)
  }

  /**
   * From the "already paid" check on (index.js:53-73). The errors of the bare upsert
   * and of the balance update are not checked.
   */
  function Credit(st: DbState, g: GuildId, m: MessageId, winner: UserId, amount: int, f: Faults): Run {
    var paid := HasRumblePaid(st, g, m, f.paidRead);
    if paid.Err? then Run(Raised(Storage(paid.error)), st)
    else if paid.value then Run(Skipped, st)
    else
      var st2 := UpsertUserRow(st, g, winner, f.userUpsert).after;
      var row := GetUserRow(st2, g, winner, f.userRead);
      if row.Err? then Run(Raised(Storage(row.error)), st2)
      else if row.value.None? then Run(Raised(NullUserRow), st2)
      else
        var st3 := UpdateBalance(st2, g, winner, row.value.value.balance + amount, f.balanceUpdate).after;
        var mark := MarkRumblePaid(st3, g, m, winner, amount, f.payoutInsert);
        if mark.result.Err? then Run(Raised(Storage(mark.result.error)), mark.after)
        else Run(Paid(winner, amount), mark.after)
  }

  /**
   * What crediting may change: only the winner's user row and the payout row of
   * (g, m), the latter only on a paying run.
   */
  lemma CreditFrame(st: DbState, g: GuildId, m: MessageId, winner: UserId, amount: int, f: Faults)
    ensures var r := Credit(st, g, m, winner, amount, f);
      && r.after == st.(users := r.after.users, payouts := r.after.payouts)
      && r.after.users - {UserKey(g, winner)} == st.users - {UserKey(g, winner)}
      && r.after.users.Keys <= st.users.Keys + {UserKey(g, winner)}
      && (!r.outcome.Paid? ==> r.after.payouts == st.payouts)
  {
    var k := UserKey(g, winner);
    var paid := HasRumblePaid(st, g, m, f.paidRead);
    if paid == Ok(false) {
      var st2 := UpsertUserRow(st, g, winner, f.userUpsert).after;
      assert st2.users - {k} == st.users - {k};
      assert st2.users.Keys <= st.users.Keys + {k};
      var row := GetUserRow(st2, g, winner, f.userRead);
      if row.Ok? && row.value.Some? {
        var st3 := UpdateBalance(st2, g, winner, row.value.value.balance + amount, f.balanceUpdate).after;
        assert st3.users - {k} == st2.users - {k};
        assert st3.users.Keys == st2.users.Keys;
      }
    }
  }

  /**
   * A paying crediting run records (g, m) as paid to the winner with the amount, and
   * the winner's row exists with the amount added to the balance it had (0 for a new
   * account) -- unless the balance write failed, whose error is not checked.
   */
  lemma CreditPaid(st: DbState, g: GuildId, m: MessageId, winner: UserId, amount: int, f: Faults)
    requires Credit(st, g, m, winner, amount, f).outcome.Paid?
    ensures var r := Credit(st, g, m, winner, amount, f);
      var k := UserKey(g, winner);
      && r.outcome == Paid(winner, amount)
      && PayoutKey(g, m) !in st.payouts
      && r.after.payouts == st.payouts[PayoutKey(g, m) := Payout(winner, amount)]
      && r.after.users.Keys == st.users.Keys + {k}
      && r.after.users[k].balance == BalanceOf(st, k) + (if f.balanceUpdate then 0 else amount)
  {
    var k := UserKey(g, winner);
    var st2 := UpsertUserRow(st, g, winner, f.userUpsert).after;
    assert k in st2.users && st2.users[k].balance == BalanceOf(st, k);
    var row := GetUserRow(st2, g, winner, f.userRead);
    assert row == Ok(Some(st2.users[k]));
  }

  // ---------------------------------------------------------------------------
  // One message

  /**
   * The shape of every run: a message outside a guild changes nothing; otherwise
   * `getConfig` writes at most the config table, and the run either stops there
   * without paying or is the crediting run on what `getConfig` left.
   */
  lemma HandleStages(st: DbState, msg: Message, f: Faults)
    ensures var r := Handle(st, msg, f);
      msg.guildId.None? ==> r == Run(Ignored(NoGuild), st)
    ensures msg.guildId.Some? ==>
      var r := Handle(st, msg, f);
      var g := msg.guildId.value;
      var cfg := GetConfig(st, g, f.configRead, f.configInsert);
      var mention := ExtractMention(msg.content);
      && cfg.after == st.(configs := cfg.after.configs)
      && (cfg.after.configs == st.configs ||
          (g !in st.configs && cfg.after.configs == st.configs[g := st.configDefault]))
      && (cfg.result.Ok? ==> cfg.result.value == ConfigFor(st, g))
      && if cfg.result.Ok? && cfg.result.value.rumbleBotId == Some(msg.authorId) && mention.Some? then
           r == Credit(cfg.after, g, msg.id, mention.value, cfg.result.value.rumbleWinAmount, f)
         else
           r.after == cfg.after && !r.outcome.Paid?
  {
  }

  /** A message outside a guild is ignored and changes nothing. */
  lemma HandleNoGuild(st: DbState, msg: Message, f: Faults)
    requires msg.guildId.None?
    ensures Handle(st, msg, f) == Run(Ignored(NoGuild), st)
  {
  }

  /**
   * What every run may change: no transaction is ever appended; the only config
   * write is the default row of a guild that had none; the only user row that can
   * be created or written is the winner's; payout rows are only ever added, and
   * only by a run that pays.
   */
  lemma HandleFrame(st: DbState, msg: Message, f: Faults)
    ensures var r := Handle(st, msg, f);
      && r.after.transactions == st.transactions
      && r.after.configDefault == st.configDefault
      && (r.after.configs == st.configs ||
          (msg.guildId.Some? && msg.guildId.value !in st.configs &&
           r.after.configs == st.configs[msg.guildId.value := st.configDefault]))
      && r.after.users - WinnerKeys(msg) == st.users - WinnerKeys(msg)
      && r.after.users.Keys <= st.users.Keys + WinnerKeys(msg)
      && st.payouts.Keys <= r.after.payouts.Keys
      && (!r.outcome.Paid? ==> r.after.payouts == st.payouts)
  {
    HandleStages(st, msg, f);
    if msg.guildId.Some? {
      var g := msg.guildId.value;
      var cfg := GetConfig(st, g, f.configRead, f.configInsert);
      var mention := ExtractMention(msg.content);
      if cfg.result.Ok? && cfg.result.value.rumbleBotId == Some(msg.authorId) && mention.Some? {
        assert WinnerKeys(msg) == {UserKey(g, mention.value)};
        CreditFrame(cfg.after, g, msg.id, mention.value, cfg.result.value.rumbleWinAmount, f);
      }
    }
  }

  /**
   * A message whose author is not the guild's configured rumble bot changes no
   * balance and no payout record; only the default config row may be inserted.
   */
  lemma HandleNotRumbleBot(st: DbState, msg: Message, f: Faults)
    requires msg.guildId.Some?
    requires ConfigFor(st, msg.guildId.value).rumbleBotId != Some(msg.authorId)
    ensures var r := Handle(st, msg, f);
      && r.after == st.(configs := r.after.configs)
      && (r.after.configs == st.configs ||
          (msg.guildId.value !in st.configs && r.after.configs == st.configs[msg.guildId.value := st.configDefault]))
      && (r.outcome == Ignored(NotRumbleBot) || r.outcome == Raised(Storage(RequestFailed)))
      && (!f.configRead && (msg.guildId.value in st.configs || !f.configInsert) ==> r.outcome == Ignored(NotRumbleBot))
  {
  }

  /** A message with no well-formed mention changes no balance and no payout record. */
  lemma HandleNoMention(st: DbState, msg: Message, f: Faults)
    requires ExtractMention(msg.content).None?
    ensures var r := Handle(st, msg, f);
      && r.after.users == st.users
      && r.after.payouts == st.payouts
      && !r.outcome.Paid?
  {
    HandleStages(st, msg, f);
  }

  /**
   * A message already recorded as paid changes no balance and no payout record; when
   * it gets as far as the check, the outcome is Skipped.
   */
  lemma HandleAlreadyPaid(st: DbState, msg: Message, f: Faults)
    requires msg.guildId.Some? && PayoutKey(msg.guildId.value, msg.id) in st.payouts
    ensures var r := Handle(st, msg, f);
      && r.after.users == st.users
      && r.after.payouts == st.payouts
      && !r.outcome.Paid?
      && (ConfigFor(st, msg.guildId.value).rumbleBotId == Some(msg.authorId) &&
          ExtractMention(msg.content).Some? &&
          !f.configRead && (msg.guildId.value in st.configs || !f.configInsert) && !f.paidRead
          ==> r.outcome == Skipped)
  {
    HandleStages(st, msg, f);
  }

  /**
   * A paying run credits the leftmost mention's user with the guild's configured
   * amount on top of the balance it had (0 for a new account), creates the account
   * if it was absent, records the payout, and writes no other user row. A failed
   * balance write is not checked: the payout is then recorded, the balance is not.
   */
  lemma HandlePaid(st: DbState, msg: Message, f: Faults)
    requires Handle(st, msg, f).outcome.Paid?
    ensures var r := Handle(st, msg, f);
      var g := msg.guildId.value;
      var w := r.outcome.winner;
      var a := r.outcome.amount;
      && msg.guildId.Some?
      && ExtractMention(msg.content) == Some(w)
      && ConfigFor(st, g).rumbleBotId == Some(msg.authorId)
      && g in r.after.configs && r.after.configs[g] == ConfigFor(st, g)
      && a == ConfigFor(st, g).rumbleWinAmount
      && PayoutKey(g, msg.id) !in st.payouts
      && r.after.payouts == st.payouts[PayoutKey(g, msg.id) := Payout(w, a)]
      && r.after.users.Keys == st.users.Keys + {UserKey(g, w)}
      && r.after.users[UserKey(g, w)].balance
           == BalanceOf(st, UserKey(g, w)) + (if f.balanceUpdate then 0 else a)
      && r.after.users - {UserKey(g, w)} == st.users - {UserKey(g, w)}
  {
    HandleStages(st, msg, f);
    var g := msg.guildId.value;
    var cfg := GetConfig(st, g, f.configRead, f.configInsert);
    var w := ExtractMention(msg.content).value;
    var a := cfg.result.value.rumbleWinAmount;
    CreditFrame(cfg.after, g, msg.id, w, a, f);
    CreditPaid(cfg.after, g, msg.id, w, a, f);
  }

  /**
   * The converse: a message from the rumble bot that mentions a winner and is not yet
   * paid is paid unless one of the requests whose error the handler checks fails
   * (or the bare upsert fails for a user who has no row yet).
   */
  lemma HandlePays(st: DbState, msg: Message, f: Faults)
    requires msg.guildId.Some?
    requires ConfigFor(st, msg.guildId.value).rumbleBotId == Some(msg.authorId)
    requires ExtractMention(msg.content).Some?
    requires PayoutKey(msg.guildId.value, msg.id) !in st.payouts
    requires !f.configRead && (msg.guildId.value in st.configs || !f.configInsert)
    requires !f.paidRead && !f.userRead && !f.payoutInsert
    requires UserKey(msg.guildId.value, ExtractMention(msg.content).value) in st.users || !f.userUpsert
    ensures Handle(st, msg, f).outcome
         == Paid(ExtractMention(msg.content).value, ConfigFor(st, msg.guildId.value).rumbleWinAmount)
  {
    HandleStages(st, msg, f);
  }

  /**
   * The bare upsert's error is not checked: when it fails for a winner who has no row
   * yet, `getUserRow` returns null, reading its balance throws, and nothing is paid,
   * credited or recorded.
   */
  lemma UpsertFaultRaises(st: DbState, msg: Message)
    requires msg.guildId.Some?
    requires ConfigFor(st, msg.guildId.value).rumbleBotId == Some(msg.authorId)
    requires ExtractMention(msg.content).Some?
    requires PayoutKey(msg.guildId.value, msg.id) !in st.payouts
    requires UserKey(msg.guildId.value, ExtractMention(msg.content).value) !in st.users
    ensures var r := Handle(st, msg, NoFaults.(userUpsert := true));
      && r.outcome == Raised(NullUserRow)
      && r.after.users == st.users
      && r.after.payouts == st.payouts
  {
    HandleStages(st, msg, NoFaults.(userUpsert := true));
  }

  /**
   * Handling a message a second time after it was paid takes the skip branch and
   * changes nothing, whatever the second run's faults: the second run credits
   * nothing. (The first run may itself have credited nothing, if its balance write
   * failed.)
   */
  lemma HandleAgainAfterPaid(st: DbState, msg: Message, f1: Faults, f2: Faults)
    requires Handle(st, msg, f1).outcome.Paid?
    ensures var r1 := Handle(st, msg, f1);
      var r2 := Handle(r1.after, msg, f2);
      && r2.after == r1.after
      && !r2.outcome.Paid?
      && (!f2.configRead && !f2.paidRead ==> r2.outcome == Skipped)
  {
    var r1 := Handle(st, msg, f1);
    HandlePaid(st, msg, f1);
    HandleAlreadyPaid(r1.after, msg, f2);
    HandleFrame(r1.after, msg, f2);
  }

  /**
   * A failed `markRumblePaid` comes after the unchecked balance write: the winner is
   * credited but the message is not recorded, so delivering the same message again
   * passes the "already paid" check and credits the winner a second time.
   */
  lemma MarkFailureCreditsAgain(st: DbState, msg: Message)
    requires msg.guildId.Some?
    requires ConfigFor(st, msg.guildId.value).rumbleBotId == Some(msg.authorId)
    requires ExtractMention(msg.content).Some?
    requires PayoutKey(msg.guildId.value, msg.id) !in st.payouts
    ensures var g := msg.guildId.value;
      var k := UserKey(g, ExtractMention(msg.content).value);
      var a := ConfigFor(st, g).rumbleWinAmount;
      var r1 := Handle(st, msg, NoFaults.(payoutInsert := true));
      var r2 := Handle(r1.after, msg, NoFaults);
      && r1.outcome == Raised(Storage(RequestFailed))
      && r1.after.payouts == st.payouts
      && k in r1.after.users && r1.after.users[k].balance == BalanceOf(st, k) + a
      && r2.outcome == Paid(k.userId, a)
      && r2.after.users[k].balance == BalanceOf(st, k) + 2 * a
  {
    var g := msg.guildId.value;
    var w := ExtractMention(msg.content).value;
    var k := UserKey(g, w);
    var f1 := NoFaults.(payoutInsert := true);
    HandleStages(st, msg, f1);
    var cfg := GetConfig(st, g, false, false);
    var st2 := UpsertUserRow(cfg.after, g, w, false).after;
    assert k in st2.users && st2.users[k].balance == BalanceOf(st, k);
    var r1 := Handle(st, msg, f1);
    assert ConfigFor(r1.after, g) == ConfigFor(st, g);
    HandlePays(r1.after, msg, NoFaults);
    HandlePaid(r1.after, msg, NoFaults);
  }

  // ---------------------------------------------------------------------------
  // A sequence of messages

  datatype Delivery = Delivery(msg: Message, faults: Faults)

  datatype Trace = Trace(outcomes: seq<Outcome>, after: DbState)

  /** Handles the deliveries in order, each on the tables the previous one left. */
  function Deliver(st: DbState, ds: seq<Delivery>): (t: Trace)
    ensures |t.outcomes| == |ds|
    decreases |ds|
  {
    if ds == [] then Trace([], st)
    else
      var r := Handle(st, ds[0].msg, ds[0].faults);
      var rest := Deliver(r.after, ds[1..]);
      Trace([r.outcome] + rest.outcomes, rest.after)
  }

  /** Delivery i is a message with this guild and id, and it was paid. */
  ghost predicate CreditedAt(ds: seq<Delivery>, outs: seq<Outcome>, i: int, key: PayoutKey) {
    && 0 <= i < |ds|
    && i < |outs|
    && ds[i].msg.guildId == Some(key.guildId)
    && ds[i].msg.id == key.messageId
    && outs[i].Paid?
  }

  /** One run seen from a single payout key: paying it records it, and a recorded key stays recorded and is not paid. */
  lemma HandleKeepsRecord(st: DbState, msg: Message, f: Faults, key: PayoutKey)
    ensures var r := Handle(st, msg, f);
      var forKey := msg.guildId == Some(key.guildId) && msg.id == key.messageId;
      && (forKey && r.outcome.Paid? ==> key in r.after.payouts)
      && (key in st.payouts ==> key in r.after.payouts && !(forKey && r.outcome.Paid?))
      && r.after.transactions == st.transactions
  {
    HandleFrame(st, msg, f);
    var r := Handle(st, msg, f);
    if msg.guildId == Some(key.guildId) && msg.id == key.messageId {
      if r.outcome.Paid? {
        HandlePaid(st, msg, f);
      }
      if key in st.payouts {
        HandleAlreadyPaid(st, msg, f);
      }
    }
  }

  /** Unfolds one delivery: the first message's run, then the rest on the tables it left. */
  lemma DeliverFirst(st: DbState, ds: seq<Delivery>, key: PayoutKey)
    requires ds != []
    ensures var r := Handle(st, ds[0].msg, ds[0].faults);
      var rest := Deliver(r.after, ds[1..]);
      var t := Deliver(st, ds);
      && t.after == rest.after
      && (CreditedAt(ds, t.outcomes, 0, key) <==>
            ds[0].msg.guildId == Some(key.guildId) && ds[0].msg.id == key.messageId && r.outcome.Paid?)
      && (forall i :: 1 <= i < |ds| ==>
            (CreditedAt(ds, t.outcomes, i, key) <==> CreditedAt(ds[1..], rest.outcomes, i - 1, key)))
  {
    var r := Handle(st, ds[0].msg, ds[0].faults);
    var rest := Deliver(r.after, ds[1..]);
    var t := Deliver(st, ds);
    assert t.outcomes == [r.outcome] + rest.outcomes;
    forall i | 1 <= i < |ds|
      ensures CreditedAt(ds, t.outcomes, i, key) <==> CreditedAt(ds[1..], rest.outcomes, i - 1, key)
    {
      assert ds[1..][i - 1] == ds[i];
      assert t.outcomes[i] == rest.outcomes[i - 1];
    }
  }

  /** A key recorded as paid stays recorded through any sequence of messages and is never paid again. */
  lemma {:induction false} RecordedNeverPaid(st: DbState, ds: seq<Delivery>, key: PayoutKey)
    requires key in st.payouts
    ensures var t := Deliver(st, ds);
      key in t.after.payouts && forall i :: !CreditedAt(ds, t.outcomes, i, key)
    decreases |ds|
  {
    if ds != [] {
      var r := Handle(st, ds[0].msg, ds[0].faults);
      HandleKeepsRecord(st, ds[0].msg, ds[0].faults, key);
      RecordedNeverPaid(r.after, ds[1..], key);
      DeliverFirst(st, ds, key);
    }
  }

  /**
   * Across any sequence of messages, interleaved with other messages and with any
   * storage faults, a (guild, message id) is reported `Paid` at most once, and once
   * paid it stays recorded. (A run that fails at `markRumblePaid` is not `Paid` but
   * has credited the winner: see `MarkFailureCreditsAgain`.)
   */
  lemma {:induction false} PaidAtMostOnce(st: DbState, ds: seq<Delivery>, key: PayoutKey)
    ensures var t := Deliver(st, ds);
      && (forall i, j :: CreditedAt(ds, t.outcomes, i, key) && CreditedAt(ds, t.outcomes, j, key) ==> i == j)
      && (forall i :: CreditedAt(ds, t.outcomes, i, key) ==> key in t.after.payouts)
    decreases |ds|
  {
    if ds != [] {
      var r := Handle(st, ds[0].msg, ds[0].faults);
      HandleKeepsRecord(st, ds[0].msg, ds[0].faults, key);
      DeliverFirst(st, ds, key);
      if key in r.after.payouts {
        RecordedNeverPaid(r.after, ds[1..], key);
      }
      PaidAtMostOnce(r.after, ds[1..], key);
    }
  }

  /** The rumble path never appends a transaction, however many messages it handles. */
  lemma {:induction false} DeliverAppendsNoTransaction(st: DbState, ds: seq<Delivery>)
    ensures Deliver(st, ds).after.transactions == st.transactions
    decreases |ds|
  {
    if ds != [] {
      var r := Handle(st, ds[0].msg, ds[0].faults);
      HandleFrame(st, ds[0].msg, ds[0].faults);
      DeliverAppendsNoTransaction(r.after, ds[1..]);
    }
  }

  // ---------------------------------------------------------------------------
  // The handler on a store

  /** The `messageCreate` listener, performing the requests of `Handle` on the store in order. */
  method HandleMessage(db: Db.Store, msg: Message, f: Faults) returns (outcome: Outcome)
    modifies db
    ensures Run(outcome, db.State()) == Handle(old(db.State()), msg, f)
  {
    if msg.guildId.None? {
      return Ignored(NoGuild);
    }
    var g := msg.guildId.value;
    var cfg := db.GetConfig(g, f.configRead, f.configInsert);
    if cfg.Err? {
      return Raised(Storage(cfg.error));
    }
    if cfg.value.rumbleBotId != Some(msg.authorId) {
      return Ignored(NotRumbleBot);
    }
    var mention := ExtractMention(msg.content);
    if mention.None? {
      return Ignored(NoMention);
    }
    outcome := CreditWinner(db, g, msg.id, mention.value, cfg.value.rumbleWinAmount, f);
  }

  /** Lines 53-73 of the listener on the store: the steps of `Credit`. */
  method CreditWinner(db: Db.Store, g: GuildId, m: MessageId, winner: UserId, amount: int, f: Faults)
    returns (outcome: Outcome)
    modifies db
    ensures Run(outcome, db.State()) == Credit(old(db.State()), g, m, winner, amount, f)
  {
    var paid := db.HasRumblePaid(g, m, f.paidRead);
    if paid.Err? {
      return Raised(Storage(paid.error));
    }
    if paid.value {
      return Skipped;
    }
    var _ := db.UpsertUserRow(g, winner, f.userUpsert);
    var row := db.GetUserRow(g, winner, f.userRead);
    if row.Err? {
      return Raised(Storage(row.error));
    }
    if row.value.None? {
      return Raised(NullUserRow);
    }
    var newBalance := row.value.value.balance + amount;
    var _ := db.UpdateBalance(g, winner, newBalance, f.balanceUpdate);
    var marked := db.MarkRumblePaid(g, m, winner, amount, f.payoutInsert);
    if marked.Err? {
      return Raised(Storage(marked.error));
    }
    return Paid(winner, amount);
  }
}
