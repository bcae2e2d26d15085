/** classes/guild-config-handler.cs: the two tables, the operation records, `ContextWrapper`
    (a FIFO of pending operations per table, coalescing on submission and drained one
    operation at a time by a worker), and the `GuildConfigHandler` operations built on it. */
module GuildConfigHandler {
  import opened Common
  import opened Structs
  import opened Utils

  // ---------------------------------------------------------------------------
  // Rows
  // ---------------------------------------------------------------------------

  /** `GuildConfig`: one row of GuildConfigs. `sendingColumn` is `_isSendingStreams`, which
      is null on a freshly built object; the three JSON columns are shown decoded. */
  datatype GuildConfig = GuildConfig(
    guild_id: ULong,
    stream_channel: Option<ULong>,
    role_id: Option<ULong>,
    sendingColumn: Option<string>,
    game_names: Option<seq<string>>,
    user_logins: Option<seq<string>>,
    user_ids: Option<seq<string>>)

  /** `new GuildConfig() { guild_id = guildId }`. */
  function NewGuildConfig(guildId: ULong): GuildConfig
  {
    GuildConfig(guildId, None, None, None, None, None, None)
  }

  /** The getter of `isSendingStreams`: true only for the exact text "true". */
  function IsSendingStreams(config: GuildConfig): bool
  {
    config.sendingColumn == Some("true")
  }

  /** The setter of `isSendingStreams`: stores "true" or "false" and touches nothing else. */
  function SetSendingStreams(config: GuildConfig, value: bool): (r: GuildConfig)
    ensures r.sendingColumn == Some("true") || r.sendingColumn == Some("false")
    ensures r == config.(sendingColumn := r.sendingColumn)
  {
    config.(sendingColumn := Some(if value then "true" else "false"))
  }

  /** Reading `isSendingStreams` after setting it gives back what was set. */
  lemma SendingStreamsRoundTrip(config: GuildConfig, value: bool)
    ensures IsSendingStreams(SetSendingStreams(config, value)) == value
  {
  }

  /** Any column text other than "true", including null, reads as false. */
  lemma SendingStreamsOnlyExactTrue(config: GuildConfig)
    ensures IsSendingStreams(config) <==> config.sendingColumn == Some("true")
    ensures config.sendingColumn.None? ==> !IsSendingStreams(config)
  {
  }

  /** `GameIdPair`: one row of GameIdPairCache, keyed by the game's name. */
  datatype GameIdPair = GameIdPair(name: string, id: string)

  // ---------------------------------------------------------------------------
  // Operations
  // ---------------------------------------------------------------------------

  datatype OperationType = Insert | Retrieve | Contains | Delete | Update

  /** `DBOperation.result`, an `object`: null, a row, or a boxed bool. */
  datatype OpResult<T> = Null | Row(row: T) | Flag(flag: bool)

  /** `DBOperation<T>`. */
  datatype DBOperation<T> = DBOperation(identifier: string, opType: OperationType, data: T, result: OpResult<T>)

  /** Every row is stored under its own primary key. */
  ghost predicate StoreKeyed<K, T>(keyOf: T -> K, store: map<K, T>)
  {
    forall k :: k in store ==> keyOf(store[k]) == k
  }

  /** The worker's effect on the table: the new table, the operation as it is announced,
      and whether an exception escaped the worker's `catch` clauses. */
  datatype Execution<K, T> = Execution(store: map<K, T>, executed: DBOperation<T>, faulted: bool)

  /** One operation applied to a table keyed by `keyOf` (guild-config-handler.cs:126-143 and
      170-187). Insert of a key already present raises the store's constraint error, which
      neither `catch` clause handles. Retrieve of a missing key throws
      `InvalidOperationException` from `First`, which is swallowed, so `result` keeps
      its previous value. Delete and Update of a missing key affect no row. */
  function Execute<K, T>(keyOf: T -> K, store: map<K, T>, op: DBOperation<T>): (e: Execution<K, T>)
    ensures e.executed.identifier == op.identifier && e.executed.opType == op.opType
    ensures e.executed.data == op.data
    ensures StoreKeyed(keyOf, store) ==> StoreKeyed(keyOf, e.store)
  {
    var key := keyOf(op.data);
    match op.opType
    case Insert =>
      if key in store then Execution(store, op, true) else Execution(store[key := op.data], op, false)
    case Retrieve =>
      Execution(store, if key in store then op.(result := Row(store[key])) else op, false)
    case Contains =>
      Execution(store, op.(result := Flag(|store| > 0 && key in store)), false)
    case Delete =>
      Execution(store - {key}, op, false)
    case Update =>
      Execution(if key in store then store[key := op.data] else store, op, false)
  }

  /** Contains answers whether a row with the operation's key exists (false on an empty
      table), and changes nothing. */
  lemma ExecuteContains<K, T>(keyOf: T -> K, store: map<K, T>, op: DBOperation<T>)
    requires op.opType == Contains
    ensures var e := Execute(keyOf, store, op);
            !e.faulted && e.store == store && e.executed.result == Flag(keyOf(op.data) in store)
  {
  }

  /** Retrieve of a present key answers with its row; of a missing key, it leaves `result`
      as it was and the announcement still happens (no fault). */
  lemma ExecuteRetrieve<K, T>(keyOf: T -> K, store: map<K, T>, op: DBOperation<T>)
    requires op.opType == Retrieve
    ensures var e := Execute(keyOf, store, op);
            && !e.faulted && e.store == store
            && (keyOf(op.data) in store ==> e.executed.result == Row(store[keyOf(op.data)]))
            && (keyOf(op.data) !in store ==> e.executed == op)
  {
  }

  /** A Contains executed after an Insert of the same key sees the row. */
  lemma InsertThenContainsSeesRow<K, T>(keyOf: T -> K, store: map<K, T>, ins: DBOperation<T>, query: DBOperation<T>)
    requires ins.opType == Insert && query.opType == Contains
    requires keyOf(ins.data) !in store && keyOf(query.data) == keyOf(ins.data)
    ensures var first := Execute(keyOf, store, ins);
            !first.faulted && Execute(keyOf, first.store, query).executed.result == Flag(true)
  {
    var first := Execute(keyOf, store, ins);
    assert keyOf(ins.data) in first.store;
  }

  /** Deleting twice leaves the table as deleting once. */
  lemma DeleteIdempotent<K, T>(keyOf: T -> K, store: map<K, T>, op: DBOperation<T>)
    requires op.opType == Delete
    ensures var once := Execute(keyOf, store, op).store;
            Execute(keyOf, once, op).store == once
  {
  }

  // ---------------------------------------------------------------------------
  // The pending queue and its waiters
  // ---------------------------------------------------------------------------

  /** LINQ `First(v => v.identifier == id)` over the pending queue: the position of the
      earliest pending operation with that identifier, if any. */
  function FirstWith<T>(pending: seq<DBOperation<T>>, id: string): (r: Option<nat>)
    ensures r.Some? ==> r.value < |pending| && pending[r.value].identifier == id
    ensures r.Some? ==> forall j :: 0 <= j < r.value ==> pending[j].identifier != id
    ensures r.None? ==> forall j :: 0 <= j < |pending| ==> pending[j].identifier != id
  {
    if pending == [] then None
    else if pending[0].identifier == id then Some(0)
    else
      var rest := FirstWith(pending[1..], id);
      if rest.Some? then Some(rest.value + 1) else None
  }

  /** `DoOperation` piggybacks when the earliest pending operation with the same identifier
      has the same kind (guild-config-handler.cs:206-211). */
  function Coalesces<T>(pending: seq<DBOperation<T>>, op: DBOperation<T>): bool
  {
    var f := FirstWith(pending, op.identifier);
    f.Some? && pending[f.value].opType == op.opType
  }

  /** The earliest pending match is still the earliest after more operations are appended. */
  lemma {:induction false} FirstWithAppend<T>(pending: seq<DBOperation<T>>, op: DBOperation<T>, id: string)
    ensures var f := FirstWith(pending, id);
            f.Some? ==> FirstWith(pending + [op], id) == f
    ensures FirstWith(pending, id).None? && op.identifier == id ==> FirstWith(pending + [op], id) == Some(|pending|)
  {
    if pending != [] {
      assert (pending + [op])[1..] == pending[1..] + [op];
      FirstWithAppend(pending[1..], op, id);
    }
  }

  /** After submission, the operation that will answer the caller is the earliest pending one
      with its identifier; it has the caller's kind when the submission coalesced, and also
      when no operation with that identifier was pending. */
  lemma SubmissionAnsweredBy<T>(pending: seq<DBOperation<T>>, op: DBOperation<T>)
    ensures var after := if Coalesces(pending, op) then pending else pending + [op];
            var f := FirstWith(after, op.identifier);
            && f.Some?
            && (Coalesces(pending, op) ==> after[f.value].opType == op.opType)
            && (FirstWith(pending, op.identifier).None? ==> after[f.value] == op)
  {
    FirstWithAppend(pending, op, op.identifier);
  }

  /** A caller of `DoOperation` waiting for the first executed operation with `identifier`
      (the listener of guild-config-handler.cs:214-222 and 235-243). */
  datatype Waiter<T> = Waiter(identifier: string, answer: Option<DBOperation<T>>)

  /** Announcing an executed operation resolves every waiter still waiting on its identifier. */
  function Announce<T>(waiters: seq<Waiter<T>>, op: DBOperation<T>): (r: seq<Waiter<T>>)
    ensures |r| == |waiters|
    ensures forall i :: 0 <= i < |r| ==> r[i].identifier == waiters[i].identifier
    ensures forall i :: 0 <= i < |r| ==>
              r[i].answer == if waiters[i].answer.None? && waiters[i].identifier == op.identifier
                             then Some(op) else waiters[i].answer
  {
    seq(|waiters|, i requires 0 <= i < |waiters| =>
      if waiters[i].answer.None? && waiters[i].identifier == op.identifier
      then waiters[i].(answer := Some(op)) else waiters[i])
  }

  /** What one turn of the worker loop did. */
  datatype StepOutcome<T> = Idle | Executed(op: DBOperation<T>) | Faulted(op: DBOperation<T>)

  /** One half of `ContextWrapper`: the pending queue (`configActive` or `idCacheActive`),
      the `handlingConfig`/`handlingId` flag, the table the worker applies operations to,
      and the listeners `DoOperation` registered on `configExecuted`/`idExecuted`. */
  class Broker<K(==), T> {
    /** Primary key of a row. */
    const keyOf: T -> K
    var pending: seq<DBOperation<T>>
    var store: map<K, T>
    var handling: bool
    var waiters: seq<Waiter<T>>

    /** Rows sit under their keys, every answer carries the identifier its waiter asked
        for, and while the worker runs, every unanswered waiter has a pending operation
        that will answer it. */
    ghost predicate Valid()
      reads this
    {
      && StoreKeyed(keyOf, store)
      && (forall i :: 0 <= i < |waiters| && waiters[i].answer.Some? ==>
            waiters[i].answer.value.identifier == waiters[i].identifier)
      && (!handling ==> forall i :: 0 <= i < |waiters| && waiters[i].answer.None? ==>
            FirstWith(pending, waiters[i].identifier).Some?)
    }

    /** A wrapper opened on a table that may already hold rows from earlier runs. */
    constructor (keyOf: T -> K, rows: map<K, T>)
      requires StoreKeyed(keyOf, rows)
      ensures Valid() && this.keyOf == keyOf
      ensures pending == [] && store == rows && !handling && waiters == []
    {
      this.keyOf := keyOf;
      pending := [];
      store := rows;
      handling := false;
      waiters := [];
    }

    /** `DoOperation`, up to its first suspension: coalesce with the earliest pending
        operation of the same identifier and kind, or enqueue at the back; in both cases
        register a waiter for the first executed operation with this identifier. */
    method DoOperation(op: DBOperation<T>) returns (ticket: nat)
      requires Valid()
      modifies this
      ensures Valid()
      ensures ticket == |old(waiters)| && waiters == old(waiters) + [Waiter(op.identifier, None)]
      ensures pending == if Coalesces(old(pending), op) then old(pending) else old(pending) + [op]
      ensures store == old(store) && handling == old(handling)
    {
      var piggyback := false;
      if |pending| > 0 {
        var f := FirstWith(pending, op.identifier);
        if f.Some? {
          var config := pending[f.value];
          piggyback := config.opType == op.opType;
        }
      }
      if !piggyback {
        pending := pending + [op];
        forall i | 0 <= i < |waiters| && waiters[i].answer.None? && !handling
          ensures FirstWith(pending, waiters[i].identifier).Some?
        {
          FirstWithAppend(old(pending), op, waiters[i].identifier);
        }
        FirstWithAppend(old(pending), op, op.identifier);
      }
      ticket := |waiters|;
      waiters := waiters + [Waiter(op.identifier, None)];
    }

    /** One turn of `handleConfig`/`handleId`: unless an operation is being handled, take
        the front operation, apply it to the table and announce it to the waiters. An
        exception the worker does not catch leaves the flag set and nothing announced, so no
        later turn runs. */
    method Step() returns (outcome: StepOutcome<T>)
      requires Valid()
      modifies this
      ensures Valid()
      ensures old(handling) || old(pending) == [] ==>
                outcome == Idle && pending == old(pending) && store == old(store)
                && handling == old(handling) && waiters == old(waiters)
      ensures !old(handling) && old(pending) != [] ==>
                var e := Execute(keyOf, old(store), old(pending)[0]);
                && pending == old(pending)[1..]
                && store == e.store
                && (e.faulted ==> outcome == Faulted(old(pending)[0]) && handling && waiters == old(waiters))
                && (!e.faulted ==> outcome == Executed(e.executed) && !handling
                                   && waiters == Announce(old(waiters), e.executed))
    {
      if handling || |pending| == 0 {
        return Idle;
      }
      var op := pending[0];
      pending := pending[1..];
      handling := true;
      var e := Execute(keyOf, store, op);
      store := e.store;
      if e.faulted {
        return Faulted(op);
      }
      waiters := Announce(waiters, e.executed);
      handling := false;
      forall i | 0 <= i < |waiters| && waiters[i].answer.None?
        ensures FirstWith(pending, waiters[i].identifier).Some?
      {
        var id := waiters[i].identifier;
        assert id != op.identifier;
        var f := FirstWith(old(pending), id);
        assert f.Some? && f.value > 0;
        assert pending[f.value - 1].identifier == id;
        if FirstWith(pending, id).None? {
          assert false;
        }
      }
      return Executed(e.executed);
    }

    /** The awaiting half of `DoOperation`: run the worker until the ticket is answered.
        The answer carries the identifier the caller asked for; a caller is left without
        one only when the worker has stopped on an uncaught exception. */
    method Await(ticket: nat) returns (answer: Option<DBOperation<T>>)
      requires Valid() && ticket < |waiters|
      modifies this
      ensures Valid() && |waiters| == |old(waiters)|
      ensures answer == waiters[ticket].answer
      ensures answer.Some? ==> answer.value.identifier == old(waiters[ticket].identifier)
      ensures forall i :: 0 <= i < |waiters| ==> waiters[i].identifier == old(waiters[i].identifier)
      ensures forall i :: 0 <= i < |waiters| && old(waiters[i].answer).Some? ==>
                waiters[i].answer == old(waiters[i].answer)
      ensures answer.None? ==> handling
      ensures KeepsWaiters(old(waiters), waiters)
      ensures FrontWait(old(pending), old(handling), old(waiters[ticket])) ==>
                var e := Execute(keyOf, old(store), old(pending)[0]);
                && pending == old(pending)[1..] && store == e.store
                && (e.faulted ==> answer.None? && handling)
                && (!e.faulted ==> answer == Some(e.executed) && !handling)
    {
      ghost var quiet := FrontWait(pending, handling, waiters[ticket]);
      while waiters[ticket].answer.None? && !handling
        invariant Valid() && ticket < |waiters| && |waiters| == |old(waiters)|
        invariant forall i :: 0 <= i < |waiters| ==> waiters[i].identifier == old(waiters[i].identifier)
        invariant forall i :: 0 <= i < |waiters| && old(waiters[i].answer).Some? ==>
                    waiters[i].answer == old(waiters[i].answer)
        invariant quiet ==>
                    || (pending == old(pending) && store == old(store) && !handling && waiters[ticket].answer.None?)
                    || (var e := Execute(keyOf, old(store), old(pending)[0]);
                        && pending == old(pending)[1..] && store == e.store
                        && (e.faulted ==> waiters[ticket].answer.None? && handling)
                        && (!e.faulted ==> waiters[ticket].answer == Some(e.executed) && !handling))
        decreases |pending|
      {
        var _ := Step();
      }
      answer := waiters[ticket].answer;
    }

    /** `await DoOperation(op)`, for callers that only need the answer: one more waiter,
        waiting on `op`'s identifier, and the earlier waiters kept. */
    method Submit(op: DBOperation<T>) returns (answer: Option<DBOperation<T>>)
      requires Valid()
      modifies this
      ensures Valid() && |waiters| == |old(waiters)| + 1 && KeepsWaiters(old(waiters), waiters)
      ensures waiters[|old(waiters)|].identifier == op.identifier
      ensures answer == waiters[|old(waiters)|].answer
    {
      var ticket := DoOperation(op);
      answer := Await(ticket);
    }
  }

  /** The worker is free, the operation at the front of the queue has the caller's
      identifier, and the caller is still waiting: the next turn of the worker answers it
      (or stops on that operation). */
  predicate FrontWait<T>(pending: seq<DBOperation<T>>, handling: bool, waiter: Waiter<T>)
  {
    && |pending| >= 1 && !handling
    && waiter.answer.None? && pending[0].identifier == waiter.identifier
  }

  /** Waiters registered earlier keep their identifiers, and those already answered keep
      their answers. */
  predicate KeepsWaiters<T(==)>(before: seq<Waiter<T>>, after: seq<Waiter<T>>)
  {
    && |before| <= |after|
    && forall i :: 0 <= i < |before| ==>
         after[i].identifier == before[i].identifier
         && (before[i].answer.Some? ==> after[i].answer == before[i].answer)
  }

  /** Every waiter from position `from` on waits on `id`. */
  predicate WaitingOn<T>(waiters: seq<Waiter<T>>, from: nat, id: string)
  {
    forall j :: from <= j < |waiters| ==> waiters[j].identifier == id
  }

  /** Keeping the waiters is transitive. */
  lemma KeepsWaitersTransitive<T>(a: seq<Waiter<T>>, b: seq<Waiter<T>>, c: seq<Waiter<T>>)
    requires KeepsWaiters(a, b) && KeepsWaiters(b, c)
    ensures KeepsWaiters(a, c)
  {
  }

  /** `ContextWrapper`: one broker per table. */
  class ContextWrapper {
    const configs: Broker<ULong, GuildConfig>
    const idCache: Broker<string, GameIdPair>

    /** Wraps the database file: `configRows` and `idRows` are the rows the file already
        holds, each under its own primary key, since `EnsureDatabaseSetup` only creates
        missing tables. */
    constructor (configRows: map<ULong, GuildConfig>, idRows: map<string, GameIdPair>)
      requires StoreKeyed((c: GuildConfig) => c.guild_id, configRows)
      requires StoreKeyed((p: GameIdPair) => p.name, idRows)
      ensures fresh(configs) && fresh(idCache)
      ensures configs.Valid() && configs.pending == [] && configs.store == configRows && configs.waiters == []
      ensures !configs.handling && !idCache.handling
      ensures idCache.Valid() && idCache.pending == [] && idCache.store == idRows && idCache.waiters == []
      ensures configs.keyOf == ((c: GuildConfig) => c.guild_id)
      ensures idCache.keyOf == ((p: GameIdPair) => p.name)
    {
      configs := new Broker((c: GuildConfig) => c.guild_id, configRows);
      idCache := new Broker((p: GameIdPair) => p.name, idRows);
    }
  }

  // ---------------------------------------------------------------------------
  // GuildConfigHandler (guild-config-handler.cs:304-392)
  // ---------------------------------------------------------------------------

  /** What escapes an awaited operation: a cast of its boxed result that .NET refuses, or an
      `await` that never completes because the worker stopped. */
  datatype Failure = NullReferenceException | InvalidCastException | NeverCompletes

  /** `(bool)result`: unboxing null throws `NullReferenceException`, a row `InvalidCastException`. */
  function CastToBool<T>(result: OpResult<T>): (r: Result<bool, Failure>)
    ensures r.Ok? <==> result.Flag?
    ensures result.Flag? ==> r == Ok(result.flag)
    ensures result.Null? ==> r == Err(NullReferenceException)
  {
    match result
    case Flag(b) => Ok(b)
    case Null => Err(NullReferenceException)
    case Row(_) => Err(InvalidCastException)
  }

  /** `(GuildConfig)result`: null casts to null, a boxed bool throws `InvalidCastException`. */
  function CastToConfig(result: OpResult<GuildConfig>): (r: Result<Option<GuildConfig>, Failure>)
    ensures r.Err? <==> result.Flag?
    ensures result.Row? ==> r == Ok(Some(result.row))
    ensures result.Null? ==> r == Ok(None)
  {
    match result
    case Row(c) => Ok(Some(c))
    case Null => Ok(None)
    case Flag(_) => Err(InvalidCastException)
  }

  /** The operation `GuildAdded` submits: insert a row for the guild that is not sending. */
  function GuildAddedOp(guildId: ULong): (op: DBOperation<GuildConfig>)
    ensures op.opType == Insert && op.identifier == NatToString(guildId)
    ensures op.data.guild_id == guildId && !IsSendingStreams(op.data)
    ensures op.data == SetSendingStreams(NewGuildConfig(guildId), false)
  {
    DBOperation(NatToString(guildId), Insert, SetSendingStreams(NewGuildConfig(guildId), false), Null)
  }

  /** The operation `GuildRemoved`, `RetrieveConfig` or `GuildHasConfig` submits: the given
      kind, keyed by the guild, on an otherwise empty row. */
  function GuildKeyOp(guildId: ULong, kind: OperationType): (op: DBOperation<GuildConfig>)
    ensures op.opType == kind && op.identifier == NatToString(guildId)
    ensures op.data == NewGuildConfig(guildId) && op.result == Null
  {
    DBOperation(NatToString(guildId), kind, NewGuildConfig(guildId), Null)
  }

  /** The operation `UpdateConfig` submits: the whole row, identified by its guild. */
  function UpdateConfigOp(config: GuildConfig): (op: DBOperation<GuildConfig>)
    ensures op.opType == Update && op.identifier == NatToString(config.guild_id) && op.data == config
  {
    DBOperation(NatToString(config.guild_id), Update, config, Null)
  }

  /** Operations for different guilds carry different identifiers, so they never coalesce
      and never answer each other's waiters. */
  lemma DifferentGuildsNeverShareIdentifier(a: ULong, b: ULong, ka: OperationType, kb: OperationType)
    requires a != b
    ensures GuildKeyOp(a, ka).identifier != GuildKeyOp(b, kb).identifier
    ensures GuildAddedOp(a).identifier != GuildKeyOp(b, kb).identifier
  {
    if NatToString(a) == NatToString(b) {
      NatToStringInjective(a, b);
    }
  }

  /** When `GuildAdded`'s Insert is still pending, `GuildHasConfig`'s Contains for the same guild
      does not coalesce (other kind) but its waiter is answered by the Insert, whose result is
      null: the `(bool)` cast then throws. */
  lemma HasConfigBehindPendingInsertGetsInsert(pending: seq<DBOperation<GuildConfig>>, guildId: ULong)
    requires FirstWith(pending, NatToString(guildId)).None?
    ensures var added := pending + [GuildAddedOp(guildId)];
            var query := GuildKeyOp(guildId, Contains);
            var after := added + [query];
            && !Coalesces(added, query)
            && FirstWith(after, query.identifier) == Some(|pending|)
            && CastToBool(after[|pending|].result) == Err(NullReferenceException)
  {
    var added := pending + [GuildAddedOp(guildId)];
    var query := GuildKeyOp(guildId, Contains);
    FirstWithAppend(pending, GuildAddedOp(guildId), NatToString(guildId));
    FirstWithAppend(added, query, NatToString(guildId));
  }

  class GuildConfigHandler {
    const wrapper: ContextWrapper

    constructor (wrapper: ContextWrapper)
      ensures this.wrapper == wrapper
    {
      this.wrapper := wrapper;
    }

    /** `GuildAdded` (an `async void`): the caller goes on once the Insert is submitted. */
    method GuildAdded(guildId: ULong)
      requires wrapper.configs.Valid()
      modifies wrapper.configs
      ensures wrapper.configs.Valid() && wrapper.configs.handling == old(wrapper.configs.handling)
      ensures wrapper.configs.waiters == old(wrapper.configs.waiters) + [Waiter(NatToString(guildId), None)]
      ensures var op := GuildAddedOp(guildId);
              wrapper.configs.pending
                == if Coalesces(old(wrapper.configs.pending), op) then old(wrapper.configs.pending)
                   else old(wrapper.configs.pending) + [op]
      ensures wrapper.configs.store == old(wrapper.configs.store)
    {
      var _ := wrapper.configs.DoOperation(GuildAddedOp(guildId));
    }

    /** `GuildRemoved` (an `async void`): submits a Delete for the guild. */
    method GuildRemoved(guildId: ULong)
      requires wrapper.configs.Valid()
      modifies wrapper.configs
      ensures wrapper.configs.Valid() && wrapper.configs.handling == old(wrapper.configs.handling)
      ensures wrapper.configs.waiters == old(wrapper.configs.waiters) + [Waiter(NatToString(guildId), None)]
      ensures var op := GuildKeyOp(guildId, Delete);
              wrapper.configs.pending
                == if Coalesces(old(wrapper.configs.pending), op) then old(wrapper.configs.pending)
                   else old(wrapper.configs.pending) + [op]
      ensures wrapper.configs.store == old(wrapper.configs.store)
    {
      var _ := wrapper.configs.DoOperation(GuildKeyOp(guildId, Delete));
    }

    /** `UpdateConfig` (an `async void`): submits an Update carrying the whole row. */
    method UpdateConfig(config: GuildConfig)
      requires wrapper.configs.Valid()
      modifies wrapper.configs
      ensures wrapper.configs.Valid() && wrapper.configs.handling == old(wrapper.configs.handling)
      ensures wrapper.configs.waiters == old(wrapper.configs.waiters) + [Waiter(NatToString(config.guild_id), None)]
      ensures var op := UpdateConfigOp(config);
              wrapper.configs.pending
                == if Coalesces(old(wrapper.configs.pending), op) then old(wrapper.configs.pending)
                   else old(wrapper.configs.pending) + [op]
      ensures wrapper.configs.store == old(wrapper.configs.store)
    {
      var _ := wrapper.configs.DoOperation(UpdateConfigOp(config));
    }

    /** `GuildHasConfig`: submit a Contains, await it and unbox its result. */
    method GuildHasConfig(guildId: ULong) returns (r: Result<bool, Failure>)
      requires wrapper.configs.Valid()
      modifies wrapper.configs
      ensures wrapper.configs.Valid()
      ensures |wrapper.configs.waiters| == |old(wrapper.configs.waiters)| + 1
      ensures KeepsWaiters(old(wrapper.configs.waiters), wrapper.configs.waiters)
      ensures var answer := wrapper.configs.waiters[|old(wrapper.configs.waiters)|].answer;
              && wrapper.configs.waiters[|old(wrapper.configs.waiters)|].identifier == NatToString(guildId)
              && (answer.None? ==> r == Err(NeverCompletes))
              && (answer.Some? ==> answer.value.identifier == NatToString(guildId)
                                   && r == CastToBool(answer.value.result))
      // When the worker is free and the front of the queue (the Contains itself on an empty
      // queue) carries this guild's identifier, that operation answers the Contains.
      ensures var front := if old(wrapper.configs.pending) == [] then GuildKeyOp(guildId, Contains)
                           else old(wrapper.configs.pending)[0];
              !old(wrapper.configs.handling) && front.identifier == NatToString(guildId) ==>
                var e := Execute(wrapper.configs.keyOf, old(wrapper.configs.store), front);
                var query := GuildKeyOp(guildId, Contains);
                var queued := if Coalesces(old(wrapper.configs.pending), query) then old(wrapper.configs.pending)
                              else old(wrapper.configs.pending) + [query];
                && wrapper.configs.store == e.store && wrapper.configs.pending == queued[1..]
                && (e.faulted ==> r == Err(NeverCompletes) && wrapper.configs.handling)
                && (!e.faulted ==> r == CastToBool(e.executed.result) && !wrapper.configs.handling)
    {
      var ticket := wrapper.configs.DoOperation(GuildKeyOp(guildId, Contains));
      var answer := wrapper.configs.Await(ticket);
      if answer.None? {
        return Err(NeverCompletes);
      }
      r := CastToBool(answer.value.result);
    }

    /** `RetrieveConfig`: submit a Retrieve and await it; when the result is null, submit the
        same Retrieve once more and take that answer. The boxed result is then cast to a row. */
    method RetrieveConfig(guildId: ULong) returns (r: Result<Option<GuildConfig>, Failure>)
      requires wrapper.configs.Valid()
      modifies wrapper.configs
      ensures wrapper.configs.Valid()
      ensures var before := |old(wrapper.configs.waiters)|;
              var waiters := wrapper.configs.waiters;
              && |waiters| > before
              && KeepsWaiters(old(wrapper.configs.waiters), waiters)
              && WaitingOn(waiters, before, NatToString(guildId))
              && r == (var last := waiters[|waiters| - 1].answer;
                       if last.None? then Err(NeverCompletes) else CastToConfig(last.value.result))
              && (waiters[before].answer.None? ==> |waiters| == before + 1 && r == Err(NeverCompletes))
              && (waiters[before].answer.Some? && !waiters[before].answer.value.result.Null? ==>
                    |waiters| == before + 1 && r == CastToConfig(waiters[before].answer.value.result))
              && (waiters[before].answer.Some? && waiters[before].answer.value.result.Null? ==>
                    |waiters| == before + 2
                    && (waiters[before + 1].answer.None? ==> r == Err(NeverCompletes))
                    && (waiters[before + 1].answer.Some? ==>
                          r == CastToConfig(waiters[before + 1].answer.value.result)))
    {
      var config := GuildKeyOp(guildId, Retrieve);
      ghost var start := wrapper.configs.waiters;
      var result := wrapper.configs.Submit(config);
      assert WaitingOn(wrapper.configs.waiters, |start|, config.identifier);
      if result.None? {
        return Err(NeverCompletes);
      }
      if result.value.result.Null? {
        ghost var first := wrapper.configs.waiters;
        result := wrapper.configs.Submit(config);
        KeepsWaitersTransitive(start, first, wrapper.configs.waiters);
        assert WaitingOn(wrapper.configs.waiters, |start|, config.identifier);
        if result.None? {
          return Err(NeverCompletes);
        }
      }
      r := CastToConfig(result.value.result);
    }

    /** `GuildAdded` followed at once by `GuildHasConfig` for the same guild, on an idle
        worker: the Insert is not coalesced with the Contains, and the Contains' waiter is
        answered by the Insert. For a new guild the Insert's result is null, so the `(bool)`
        cast throws; for a guild that already has a row the Insert breaks the primary key,
        the worker stops and the `await` never completes. */
    method GuildAddedThenHasConfig(guildId: ULong) returns (r: Result<bool, Failure>)
      requires wrapper.configs.Valid()
      requires wrapper.configs.pending == [] && !wrapper.configs.handling
      requires forall c: GuildConfig :: wrapper.configs.keyOf(c) == c.guild_id
      modifies wrapper.configs
      ensures wrapper.configs.Valid()
      ensures guildId !in old(wrapper.configs.store) ==>
                && r == Err(NullReferenceException) && !wrapper.configs.handling
                && wrapper.configs.store == old(wrapper.configs.store)[guildId := GuildAddedOp(guildId).data]
                && wrapper.configs.pending == [GuildKeyOp(guildId, Contains)]
      ensures guildId in old(wrapper.configs.store) ==>
                && r == Err(NeverCompletes) && wrapper.configs.handling
                && wrapper.configs.store == old(wrapper.configs.store)
                && wrapper.configs.pending == [GuildKeyOp(guildId, Contains)]
    {
      var insert := GuildAddedOp(guildId);
      var query := GuildKeyOp(guildId, Contains);
      GuildAdded(guildId);
      assert wrapper.configs.pending == [insert];
      assert !Coalesces(wrapper.configs.pending, query);
      assert wrapper.configs.keyOf(insert.data) == guildId;
      r := GuildHasConfig(guildId);
    }
  }
}
