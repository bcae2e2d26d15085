/** classes/stream.cs: which guilds get a poll request, the listener that announces each
    stream once, and the thumbnail address of an announcement. */
module StreamSender {
  import opened Common
  import opened Structs
  import opened Utils
  import opened CustomQueue
  import opened GuildConfigHandler
  import opened StreamHandler
  import opened GameIdCache

  // ---------------------------------------------------------------------------
  // Eligibility and the request of one guild (stream.cs:23-37)
  // ---------------------------------------------------------------------------

  /** A guild with a stored row is polled when it has switched sending on and named a channel. */
  predicate Eligible(config: GuildConfig)
  {
    IsSendingStreams(config) && config.stream_channel.Some?
  }

  /** The request `DoGuildChecks` builds: at most 100 streams, the guild, the row's user ids
      and logins, and the game ids resolved from the row's game names. */
  function BuildRequest(guildId: ULong, config: GuildConfig, gameIds: Option<seq<string>>): (request: StreamGrabRequest)
  {
    StreamGrabRequest(guildId, config.user_ids, config.user_logins, gameIds, Some(100), None, None)
  }

  /** Two guilds with the same lists build different requests, so both are queued, yet their
      requests share one fingerprint, so each guild's listener accepts the other's broadcast. */
  lemma SameListsShareFingerprint(a: ULong, b: ULong, config: GuildConfig, gameIds: Option<seq<string>>)
    requires a != b
    ensures BuildRequest(a, config, gameIds) != BuildRequest(b, config, gameIds)
    ensures Fingerprint(BuildRequest(a, config, gameIds)) == Fingerprint(BuildRequest(b, config, gameIds))
  {
    FingerprintIgnoresGuild(BuildRequest(a, config, gameIds), b);
  }

  // ---------------------------------------------------------------------------
  // The listener and the shared record of sent streams (stream.cs:38-53)
  // ---------------------------------------------------------------------------

  /** A subscribed listener: the hash `AddRequest` returned, and the guild and row it
      announces for. */
  datatype Listener = Listener(listeningId: string, config: GuildConfig, guildId: ULong)

  /** One `SendMessage` started by a listener. */
  datatype Notice = Notice(guildId: ULong, config: GuildConfig, stream: Stream)

  /** The ids of a run of notices. */
  function NoticeIds(notices: seq<Notice>): (ids: seq<string>)
    ensures |ids| == |notices|
  {
    if notices == [] then [] else NoticeIds(notices[..|notices| - 1]) + [notices[|notices| - 1].stream.id]
  }

  /** One listener's loop over a response, given the record `sent` as it stands when the
      listener starts: each stream whose id is not yet recorded is recorded and announced.
      The result is the announcements; the record afterwards is `sent` followed by their ids. */
  function DeliverStreams(sent: seq<string>, listener: Listener, streams: seq<Stream>): seq<Notice>
    decreases |streams|
  {
    if streams == [] then []
    else
      var prev := DeliverStreams(sent, listener, streams[..|streams| - 1]);
      var stream := streams[|streams| - 1];
      if stream.id in sent + NoticeIds(prev) then prev
      else prev + [Notice(listener.guildId, listener.config, stream)]
  }

  /** The listener lambda for one broadcast: its loop when the broadcast's hash is the one
      it listens for, nothing otherwise. */
  function Heard(sent: seq<string>, listener: Listener, hash: string, streams: seq<Stream>): seq<Notice>
  {
    if listener.listeningId == hash then DeliverStreams(sent, listener, streams) else []
  }

  /** Raising `StreamsGrabbed`: the listeners run in subscription order, each seeing the
      record as the earlier ones left it, and those whose hash is the broadcast's run their
      loop. */
  function Announcements(sent: seq<string>, listeners: seq<Listener>, hash: string, streams: seq<Stream>): seq<Notice>
    decreases |listeners|
  {
    if listeners == [] then []
    else
      var prev := Announcements(sent, listeners[..|listeners| - 1], hash, streams);
      var listener := listeners[|listeners| - 1];
      if listener.listeningId == hash then prev + DeliverStreams(sent + NoticeIds(prev), listener, streams)
      else prev
  }

  /** The listeners that accept a broadcast with this hash. */
  function Accepting(listeners: seq<Listener>, hash: string): set<Listener>
    decreases |listeners|
  {
    if listeners == [] then {}
    else
      var listener := listeners[|listeners| - 1];
      Accepting(listeners[..|listeners| - 1], hash) + (if listener.listeningId == hash then {listener} else {})
  }

  lemma {:induction false} NoticeIdsConcat(a: seq<Notice>, b: seq<Notice>)
    ensures NoticeIds(a + b) == NoticeIds(a) + NoticeIds(b)
    decreases |b|
  {
    if b == [] {
      assert a + b == a;
    } else {
      var init := b[..|b| - 1];
      NoticeIdsConcat(a, init);
      assert (a + b)[..|a + b| - 1] == a + init;
    }
  }

  lemma AppendFreshKeepsDistinct<T>(s: seq<T>, x: T)
    requires NoDuplicates(s) && x !in s
    ensures NoDuplicates(s + [x])
  {
    forall i, j | 0 <= i < j < |s + [x]| ensures (s + [x])[i] != (s + [x])[j] {
      if j == |s| {
        assert (s + [x])[i] == s[i];
      }
    }
  }

  /** A listener's loop never records an id twice. */
  lemma {:induction false} DeliverStreamsNoDuplicates(sent: seq<string>, listener: Listener, streams: seq<Stream>)
    requires NoDuplicates(sent)
    ensures NoDuplicates(sent + NoticeIds(DeliverStreams(sent, listener, streams)))
    decreases |streams|
  {
    if streams != [] {
      var prev := DeliverStreams(sent, listener, streams[..|streams| - 1]);
      var stream := streams[|streams| - 1];
      DeliverStreamsNoDuplicates(sent, listener, streams[..|streams| - 1]);
      if stream.id !in sent + NoticeIds(prev) {
        var n := Notice(listener.guildId, listener.config, stream);
        NoticeIdsConcat(prev, [n]);
        assert sent + NoticeIds(prev + [n]) == (sent + NoticeIds(prev)) + [stream.id];
        AppendFreshKeepsDistinct(sent + NoticeIds(prev), stream.id);
      }
    }
  }

  /** A broadcast never records an id twice, however many listeners accept it and however
      often one response lists a stream. */
  lemma {:induction false} BroadcastNoDuplicates(sent: seq<string>, listeners: seq<Listener>, hash: string, streams: seq<Stream>)
    requires NoDuplicates(sent)
    ensures NoDuplicates(sent + NoticeIds(Announcements(sent, listeners, hash, streams)))
    decreases |listeners|
  {
    if listeners != [] {
      var prev := Announcements(sent, listeners[..|listeners| - 1], hash, streams);
      var listener := listeners[|listeners| - 1];
      BroadcastNoDuplicates(sent, listeners[..|listeners| - 1], hash, streams);
      if listener.listeningId == hash {
        var more := DeliverStreams(sent + NoticeIds(prev), listener, streams);
        DeliverStreamsNoDuplicates(sent + NoticeIds(prev), listener, streams);
        NoticeIdsConcat(prev, more);
        assert sent + NoticeIds(prev + more) == (sent + NoticeIds(prev)) + NoticeIds(more);
      }
    }
  }

  /** Starting from a record without repeats, no announcement of a broadcast carries an id
      the record already held. */
  lemma BroadcastSkipsRecorded(sent: seq<string>, listeners: seq<Listener>, hash: string, streams: seq<Stream>)
    requires NoDuplicates(sent)
    ensures var ids := NoticeIds(Announcements(sent, listeners, hash, streams));
            forall k :: 0 <= k < |ids| ==> ids[k] !in sent
  {
    var ids := NoticeIds(Announcements(sent, listeners, hash, streams));
    BroadcastNoDuplicates(sent, listeners, hash, streams);
    var all := sent + ids;
    forall k | 0 <= k < |ids| ensures ids[k] !in sent {
      assert all[|sent| + k] == ids[k];
      forall i | 0 <= i < |sent| ensures sent[i] != ids[k] {
        assert all[i] == sent[i];
      }
    }
  }

  /** Every notice is for a stream of the response and goes to a guild and row that one
      of the given listeners holds. */
  ghost predicate AnnouncedBy(notices: seq<Notice>, holders: set<Listener>, hash: string, streams: seq<Stream>)
  {
    forall k :: 0 <= k < |notices| ==>
      notices[k].stream in streams && Listener(hash, notices[k].config, notices[k].guildId) in holders
  }

  lemma AnnouncedByConcat(a: seq<Notice>, b: seq<Notice>, holders: set<Listener>, hash: string, streams: seq<Stream>)
    requires AnnouncedBy(a, holders, hash, streams) && AnnouncedBy(b, holders, hash, streams)
    ensures AnnouncedBy(a + b, holders, hash, streams)
  {
    forall k | 0 <= k < |a + b|
      ensures (a + b)[k].stream in streams && Listener(hash, (a + b)[k].config, (a + b)[k].guildId) in holders
    {
      if k < |a| {
        assert (a + b)[k] == a[k];
      } else {
        assert (a + b)[k] == b[k - |a|];
      }
    }
  }

  /** Each announcement of a listener's loop is for a stream of the response, and for the
      listener's own guild and row. */
  lemma {:induction false} DeliverStreamsFromListener(sent: seq<string>, listener: Listener, streams: seq<Stream>)
    ensures AnnouncedBy(DeliverStreams(sent, listener, streams), {listener}, listener.listeningId, streams)
    decreases |streams|
  {
    if streams != [] {
      var init := streams[..|streams| - 1];
      var stream := streams[|streams| - 1];
      var prev := DeliverStreams(sent, listener, init);
      DeliverStreamsFromListener(sent, listener, init);
      assert forall x :: x in init ==> x in streams;
      assert AnnouncedBy(prev, {listener}, listener.listeningId, streams);
      if stream.id !in sent + NoticeIds(prev) {
        var n := Notice(listener.guildId, listener.config, stream);
        assert Listener(listener.listeningId, n.config, n.guildId) == listener;
        assert AnnouncedBy([n], {listener}, listener.listeningId, streams);
        AnnouncedByConcat(prev, [n], {listener}, listener.listeningId, streams);
      }
    }
  }

  /** Each announcement of a broadcast is for a stream of the response, sent to the guild
      and row of a listener that accepts the broadcast's hash. */
  lemma {:induction false} BroadcastOnlyToAccepting(sent: seq<string>, listeners: seq<Listener>, hash: string, streams: seq<Stream>)
    ensures AnnouncedBy(Announcements(sent, listeners, hash, streams), Accepting(listeners, hash), hash, streams)
    decreases |listeners|
  {
    if listeners != [] {
      var init := listeners[..|listeners| - 1];
      var prev := Announcements(sent, init, hash, streams);
      var listener := listeners[|listeners| - 1];
      BroadcastOnlyToAccepting(sent, init, hash, streams);
      var holders := Accepting(listeners, hash);
      assert AnnouncedBy(prev, holders, hash, streams);
      if listener.listeningId == hash {
        var more := DeliverStreams(sent + NoticeIds(prev), listener, streams);
        DeliverStreamsFromListener(sent + NoticeIds(prev), listener, streams);
        assert listener in holders;
        assert AnnouncedBy(more, holders, hash, streams);
        AnnouncedByConcat(prev, more, holders, hash, streams);
      }
    }
  }

  /** A broadcast whose hash no listener holds announces nothing. */
  lemma {:induction false} UnmatchedBroadcastIsDropped(sent: seq<string>, listeners: seq<Listener>, hash: string, streams: seq<Stream>)
    requires Accepting(listeners, hash) == {}
    ensures Announcements(sent, listeners, hash, streams) == []
    decreases |listeners|
  {
    if listeners != [] {
      var init := listeners[..|listeners| - 1];
      assert Accepting(init, hash) <= Accepting(listeners, hash);
      UnmatchedBroadcastIsDropped(sent, init, hash, streams);
    }
  }

  /** With one record for every guild, a new stream that the first accepting listener
      announced is not announced to a second guild whose listener accepts the same broadcast. */
  lemma StreamGoesToFirstGuildOnly(sent: seq<string>, first: Listener, second: Listener, hash: string, stream: Stream)
    requires first.listeningId == hash && second.listeningId == hash && stream.id !in sent
    ensures Announcements(sent, [first, second], hash, [stream]) == [Notice(first.guildId, first.config, stream)]
  {
    var listeners := [first, second];
    FirstListenerAnnounces(sent, listeners, hash, stream);
    LaterListenerSilent(sent, listeners, 1, hash, stream, [Notice(first.guildId, first.config, stream)]);
    assert listeners[..2] == listeners;
  }

  lemma FirstListenerAnnounces(sent: seq<string>, listeners: seq<Listener>, hash: string, stream: Stream)
    requires listeners != [] && listeners[0].listeningId == hash && stream.id !in sent
    ensures Announcements(sent, listeners[..1], hash, [stream]) == [Notice(listeners[0].guildId, listeners[0].config, stream)]
  {
    assert listeners[..0] == [];
    assert NoticeIds([]) == [] && sent + [] == sent;
    AnnouncementsStep(sent, listeners, 0, hash, [stream]);
    DeliverOne(sent, listeners[0], stream);
  }

  lemma LaterListenerSilent(sent: seq<string>, listeners: seq<Listener>, j: nat, hash: string, stream: Stream, notices: seq<Notice>)
    requires j < |listeners| && Announcements(sent, listeners[..j], hash, [stream]) == notices
    requires |notices| == 1 && notices[0].stream == stream
    ensures Announcements(sent, listeners[..j + 1], hash, [stream]) == notices
  {
    AnnouncementsStep(sent, listeners, j, hash, [stream]);
    assert NoticeIds(notices) == NoticeIds(notices[..0]) + [stream.id];
    assert NoticeIds(notices[..0]) == [];
    DeliverOne(sent + NoticeIds(notices), listeners[j], stream);
    assert stream.id in sent + NoticeIds(notices);
    assert notices + [] == notices;
  }


  /** A listener's loop over a single stream. */
  lemma DeliverOne(sent: seq<string>, listener: Listener, stream: Stream)
    ensures DeliverStreams(sent, listener, [stream])
              == if stream.id in sent then [] else [Notice(listener.guildId, listener.config, stream)]
  {
    assert [stream][..0] == [];
    assert NoticeIds([]) == [] && sent + [] == sent;
  }

  // ---------------------------------------------------------------------------
  // The sender (stream.cs:7-68)
  // ---------------------------------------------------------------------------

  /** How one guild of a `DoGuildChecks` pass ended. */
  datatype GuildCheck =
    | NoConfig
    | NotEligible(config: GuildConfig)
    | AlreadyQueued(config: GuildConfig)
    | Registered(listener: Listener, request: StreamGrabRequest)
    | Aborted(failure: Failure)

  /** The listeners one pass added, against the queue before and after the pass: each added
      a request of its own at the end of the queue, for an eligible guild of the pass that had
      no request queued ahead of it, and listens for that request's fingerprint. */
  ghost predicate RegisteredInOrder(before: seq<StreamGrabRequest>, after: seq<StreamGrabRequest>,
                                    added: seq<Listener>, guildIds: seq<ULong>)
  {
    && |after| == |before| + |added|
    && after[..|before|] == before
    && forall k :: 0 <= k < |added| ==>
         && after[|before| + k].guild_id == added[k].guildId
         && Fingerprint(after[|before| + k]) == added[k].listeningId
         && Eligible(added[k].config)
         && added[k].guildId in guildIds
         && forall i :: 0 <= i < |before| + k ==> after[i].guild_id != added[k].guildId
  }

  /** One pass registers at most one listener per guild, and none for a guild whose request
      was queued when the pass began. */
  lemma OneListenerPerGuild(before: seq<StreamGrabRequest>, after: seq<StreamGrabRequest>,
                            added: seq<Listener>, guildIds: seq<ULong>)
    requires RegisteredInOrder(before, after, added, guildIds)
    ensures forall k, m :: 0 <= k < m < |added| ==> added[k].guildId != added[m].guildId
    ensures forall k, i :: 0 <= k < |added| && 0 <= i < |before| ==> before[i].guild_id != added[k].guildId
  {
    forall k, m | 0 <= k < m < |added| ensures added[k].guildId != added[m].guildId {
      assert after[|before| + k].guild_id == added[k].guildId;
    }
    forall k, i | 0 <= k < |added| && 0 <= i < |before| ensures before[i].guild_id != added[k].guildId {
      assert after[i] == before[i];
    }
  }

  /** Lines 23-25 of `DoGuildChecks` judged by the database's answers: `asked` answers the
      Contains, `fetched` the last Retrieve. A Contains that never completes, or whose
      result does not unbox, stops the guild; false means no row; true leads to the row
      fetched, and a null row fails as soon as the loop reads a field of it. */
  function LoadedFrom(asked: Option<DBOperation<GuildConfig>>, fetched: Option<DBOperation<GuildConfig>>)
    : (loaded: Result<Option<GuildConfig>, Failure>)
    ensures loaded == Ok(None) <==> asked.Some? && asked.value.result == Flag(false)
    ensures loaded.Ok? && loaded.value.Some? <==>
              && asked.Some? && asked.value.result == Flag(true)
              && fetched.Some? && fetched.value.result.Row?
    ensures loaded.Ok? && loaded.value.Some? ==> fetched.value.result == Row(loaded.value.value)
    ensures asked.None? ==> loaded == Err(NeverCompletes)
    ensures asked.Some? && !asked.value.result.Flag? ==> loaded == Err(CastToBool(asked.value.result).error)
  {
    if asked.None? then Err(NeverCompletes)
    else
      var has := CastToBool(asked.value.result);
      if has.Err? then Err(has.error)
      else if !has.value then Ok(None)
      else if fetched.None? then Err(NeverCompletes)
      else
        var row := CastToConfig(fetched.value.result);
        if row.Err? then Err(row.error)
        else if row.value.None? then Err(NullReferenceException)
        else row
  }

  /** The game names of a row resolve without a failure on a cache whose worker is free
      and whose queue is empty (no names at all resolve trivially). */
  ghost predicate NamesResolve(config: GuildConfig, store: map<string, GameIdPair>, lookup: string -> Option<string>)
  {
    config.game_names.None? || ResolveAll(store, config.game_names.value, lookup).result.Ok?
  }

  /** Some queued request belongs to the guild. */
  ghost predicate QueuedFor(queue: seq<StreamGrabRequest>, guildId: ULong)
  {
    exists i :: 0 <= i < |queue| && queue[i].guild_id == guildId
  }

  /** What a guild's check rests on: the waiters `from` up to `to` of its own turn, all on
      the guild's identifier, and the request queue. The row `LoadedFrom` reads off the
      turn's first (Contains) and last (Retrieve) answers decides the check: no row means no
      config, an ineligible row is judged so, an eligible row is skipped only with a request
      of the guild queued and registered only with its own request queued and its listener
      on that request's hash; an abort carries the load's failure, or follows an eligible
      row with game names. */
  ghost predicate CheckJustified(check: GuildCheck, guildId: ULong, waiters: seq<Waiter<GuildConfig>>,
                                 from: nat, to: nat, queue: seq<StreamGrabRequest>)
  {
    && from < to <= |waiters|
    && (forall j :: from <= j < to ==> waiters[j].identifier == NatToString(guildId))
    && var loaded := LoadedFrom(waiters[from].answer, waiters[to - 1].answer);
       match check
       case NoConfig => loaded == Ok(None)
       case NotEligible(config) => loaded == Ok(Some(config)) && !Eligible(config)
       case AlreadyQueued(config) => loaded == Ok(Some(config)) && Eligible(config) && QueuedFor(queue, guildId)
       case Registered(listener, request) =>
         && loaded == Ok(Some(listener.config)) && Eligible(listener.config) && listener.guildId == guildId
         && listener.listeningId == Fingerprint(request)
         && request == BuildRequest(guildId, listener.config, request.game_ids) && request in queue
       case Aborted(failure) =>
         && (loaded.Err? ==> failure == loaded.error)
         && (loaded.Ok? ==> loaded.value.Some? && Eligible(loaded.value.value)
                            && loaded.value.value.game_names.Some?)
  }

  /** Answers that arrived stay, so a load that succeeded reads the same later. */
  lemma LoadedFromKept(asked: Option<DBOperation<GuildConfig>>, fetched: Option<DBOperation<GuildConfig>>,
                       asked': Option<DBOperation<GuildConfig>>, fetched': Option<DBOperation<GuildConfig>>)
    requires LoadedFrom(asked, fetched).Ok?
    requires asked.Some? ==> asked' == asked
    requires fetched.Some? ==> fetched' == fetched
    ensures LoadedFrom(asked', fetched') == LoadedFrom(asked, fetched)
  {
  }

  /** A check that did not abort stays justified by its turn while later waiters are added
      and later requests queued. */
  lemma CheckJustifiedKept(check: GuildCheck, guildId: ULong, waiters: seq<Waiter<GuildConfig>>,
                           waiters': seq<Waiter<GuildConfig>>, from: nat, to: nat,
                           queue: seq<StreamGrabRequest>, queue': seq<StreamGrabRequest>)
    requires CheckJustified(check, guildId, waiters, from, to, queue) && !check.Aborted?
    requires KeepsWaiters(waiters, waiters') && |queue| <= |queue'| && queue'[..|queue|] == queue
    ensures CheckJustified(check, guildId, waiters', from, to, queue')
  {
    LoadedFromKept(waiters[from].answer, waiters[to - 1].answer, waiters'[from].answer, waiters'[to - 1].answer);
    if check.AlreadyQueued? {
      var i :| 0 <= i < |queue| && queue[i].guild_id == guildId;
      assert queue'[i] == queue[i];
    }
    if check.Registered? {
      assert check.request in queue'[..|queue|];
    }
  }

  /** How a guild's check follows from the row loaded for it, whether a request of the guild
      was queued, and (when `quiet`: the cache's worker free, its queue empty) the cache. A
      failed load aborts, no row is no config; a row that is not eligible is judged so, an
      eligible one is skipped when queued and otherwise registered, unless its game names
      fail to resolve, which on a quiet cache is exactly `ResolveAll`'s failure. */
  ghost predicate DecidedBy(check: GuildCheck, loaded: Result<Option<GuildConfig>, Failure>, queued: bool,
                            quiet: bool, store: map<string, GameIdPair>, lookup: string -> Option<string>)
  {
    && (loaded.Err? ==> check == Aborted(loaded.error))
    && (loaded == Ok(None) ==> check == NoConfig)
    && (loaded.Ok? && loaded.value.Some? ==>
          var config := loaded.value.value;
          && (!Eligible(config) ==> check == NotEligible(config))
          && (Eligible(config) && queued ==> check == AlreadyQueued(config))
          && (Eligible(config) && !queued ==> check.Registered? || check.Aborted?)
          && (check.Registered? ==> check.listener.config == config)
          && (check.Aborted? ==> Eligible(config) && config.game_names.Some?)
          && (check.Aborted? && quiet ==> ResolveAll(store, config.game_names.value, lookup).result == Err(check.failure)))
  }

  /** Every check of a run is justified for the guild it was made for by the waiters of its
      own turn: `turns[k]` up to `turns[k + 1]` are the waiters of the `k`-th guild, and the
      turns together cover every waiter from `turns[0]` on. */
  ghost predicate AllJustified(checks: seq<GuildCheck>, guildIds: seq<ULong>, turns: seq<nat>,
                               waiters: seq<Waiter<GuildConfig>>, queue: seq<StreamGrabRequest>)
  {
    && |checks| <= |guildIds| && |turns| == |checks| + 1
    && turns[|checks|] == |waiters|
    && forall k :: 0 <= k < |checks| ==> CheckJustified(checks[k], guildIds[k], waiters, turns[k], turns[k + 1], queue)
  }

  /** A run of justified checks, none aborted, extended by the next guild's check, justified
      by the waiters its turn added, is justified against the later waiters and queue. */
  lemma AllJustifiedStep(checks: seq<GuildCheck>, guildIds: seq<ULong>, turns: seq<nat>, check: GuildCheck,
                         waiters: seq<Waiter<GuildConfig>>, waiters': seq<Waiter<GuildConfig>>,
                         queue: seq<StreamGrabRequest>, queue': seq<StreamGrabRequest>)
    requires AllJustified(checks, guildIds, turns, waiters, queue) && |checks| < |guildIds|
    requires forall k :: 0 <= k < |checks| ==> !checks[k].Aborted?
    requires KeepsWaiters(waiters, waiters') && |queue| <= |queue'| && queue'[..|queue|] == queue
    requires CheckJustified(check, guildIds[|checks|], waiters', |waiters|, |waiters'|, queue')
    ensures AllJustified(checks + [check], guildIds, turns + [|waiters'|], waiters', queue')
  {
    var turns' := turns + [|waiters'|];
    forall k | 0 <= k < |checks|
      ensures CheckJustified(checks[k], guildIds[k], waiters', turns'[k], turns'[k + 1], queue')
    {
      CheckJustifiedKept(checks[k], guildIds[k], waiters, waiters', turns[k], turns[k + 1], queue, queue');
    }
  }

  /** The listeners a run of checks subscribed, in order. */
  function Registrations(checks: seq<GuildCheck>): (added: seq<Listener>)
    ensures |added| <= |checks|
  {
    if checks == [] then []
    else
      var last := checks[|checks| - 1];
      Registrations(checks[..|checks| - 1]) + (if last.Registered? then [last.listener] else [])
  }
  /** The listeners after a guild's turn are those the checks so far subscribed. */
  lemma ListenersStep(checks: seq<GuildCheck>, check: GuildCheck, known: seq<Listener>,
                      listeners: seq<Listener>, listeners': seq<Listener>)
    requires listeners == known + Registrations(checks)
    requires check.Registered? ==> listeners' == listeners + [check.listener]
    requires !check.Registered? ==> listeners' == listeners
    ensures listeners' == known + Registrations(checks + [check])
  {
    var added := Registrations(checks);
    RegistrationsAppend(checks, check);
    if check.Registered? {
      assert known + (added + [check.listener]) == known + added + [check.listener];
    } else {
      assert added + [] == added;
    }
  }

  /** A guild's turn keeps the pass's registrations in order. */
  lemma RegistrationsStep(checks: seq<GuildCheck>, guildIds: seq<ULong>, check: GuildCheck,
                          base: seq<StreamGrabRequest>, queue: seq<StreamGrabRequest>, queue': seq<StreamGrabRequest>)
    requires |checks| < |guildIds|
    requires RegisteredInOrder(base, queue, Registrations(checks), guildIds)
    requires check.Registered? ==>
               && check.listener.guildId == guildIds[|checks|] && check.request.guild_id == guildIds[|checks|]
               && check.listener.listeningId == Fingerprint(check.request) && Eligible(check.listener.config)
               && (forall i :: 0 <= i < |queue| ==> queue[i].guild_id != guildIds[|checks|])
               && queue' == queue + [check.request]
    requires !check.Registered? ==> queue' == queue
    ensures RegisteredInOrder(base, queue', Registrations(checks + [check]), guildIds)
  {
    var added := Registrations(checks);
    RegistrationsAppend(checks, check);
    if check.Registered? {
      assert check.listener.guildId in guildIds by {
        assert guildIds[|checks|] == check.listener.guildId;
      }
      RegisteredStep(base, queue, added, guildIds, check.request, check.listener);
      assert Registrations(checks + [check]) == added + [check.listener];
    } else {
      assert Registrations(checks + [check]) == added;
    }
  }

  /** The next check adds its listener, if it registered one. */
  lemma RegistrationsAppend(checks: seq<GuildCheck>, check: GuildCheck)
    ensures Registrations(checks + [check])
              == Registrations(checks) + (if check.Registered? then [check.listener] else [])
  {
    assert (checks + [check])[..|checks|] == checks;
  }


  class StreamSender {
    const configs: GuildConfigHandler
    const handler: StreamHandler
    const cache: GameNameIdCache
    /** `sent_streams`: one record for every listener of this sender. */
    var sentStreams: seq<string>
    /** The `StreamsGrabbed` subscribers, in subscription order. */
    var listeners: seq<Listener>
    /** The `SendMessage` calls started so far. */
    var outbox: seq<Notice>

    ghost predicate Valid()
      reads this, configs, configs.wrapper, configs.wrapper.configs, handler, handler.queue, cache, cache.cache
    {
      && configs.wrapper.configs.Valid() && handler.Valid() && cache.Valid()
      && NoDuplicates(sentStreams)
    }

    constructor (configs: GuildConfigHandler, handler: StreamHandler, cache: GameNameIdCache)
      requires configs.wrapper.configs.Valid() && handler.Valid() && cache.Valid()
      ensures Valid()
      ensures this.configs == configs && this.handler == handler && this.cache == cache
      ensures sentStreams == [] && listeners == [] && outbox == []
    {
      this.configs := configs;
      this.handler := handler;
      this.cache := cache;
      sentStreams := [];
      listeners := [];
      outbox := [];
    }

    /** Lines 23-25 of `DoGuildChecks`: ask whether the guild has a row, then fetch it. The
        outcome is the one `LoadedFrom` reads off the Contains answer and the last Retrieve
        answer, both waited on under the guild's identifier. */
    method LoadConfig(guildId: ULong) returns (loaded: Result<Option<GuildConfig>, Failure>)
      requires configs.wrapper.configs.Valid()
      modifies configs.wrapper.configs
      ensures configs.wrapper.configs.Valid()
      ensures var waiters := configs.wrapper.configs.waiters;
              var before := |old(configs.wrapper.configs.waiters)|;
              && |waiters| > before
              && KeepsWaiters(old(configs.wrapper.configs.waiters), waiters)
              && WaitingOn(waiters, before, NatToString(guildId))
              && loaded == LoadedFrom(waiters[before].answer, waiters[|waiters| - 1].answer)
    {
      ghost var start := configs.wrapper.configs.waiters;
      var has := configs.GuildHasConfig(guildId);
      if has.Err? {
        return Err(has.error);
      }
      if !has.value {
        return Ok(None);
      }
      ghost var middle := configs.wrapper.configs.waiters;
      var retrieved := configs.RetrieveConfig(guildId);
      KeepsWaitersTransitive(start, middle, configs.wrapper.configs.waiters);
      assert configs.wrapper.configs.waiters[|start|] == middle[|start|];
      if retrieved.Err? {
        return Err(retrieved.error);
      }
      if retrieved.value.None? {
        return Err(NullReferenceException);
      }
      loaded := retrieved;
    }

    /** Lines 28-54 of `DoGuildChecks` for an eligible row: skip a guild with a queued
        request, otherwise resolve the game names, queue the request and subscribe a
        listener for its hash. */
    method Register(guildId: ULong, config: GuildConfig, lookup: string -> Option<string>) returns (check: GuildCheck)
      requires Valid() && Eligible(config)
      modifies this, cache.cache, handler.queue
      ensures Valid()
      ensures sentStreams == old(sentStreams) && outbox == old(outbox)
      ensures check.Registered? || check.AlreadyQueued? || check.Aborted?
      ensures check.AlreadyQueued? <==> QueuedFor(old(handler.queue.queue), guildId)
      ensures check.AlreadyQueued? ==> check.config == config
      ensures check.Registered? ==>
                && check.listener == Listener(Fingerprint(check.request), config, guildId)
                && check.request == BuildRequest(guildId, config, check.request.game_ids)
                && (forall i :: 0 <= i < |old(handler.queue.queue)| ==> old(handler.queue.queue)[i].guild_id != guildId)
                && handler.queue.queue == old(handler.queue.queue) + [check.request]
                && listeners == old(listeners) + [check.listener]
      ensures check.Registered? && config.game_names.None? ==> check.request.game_ids.None?
      ensures check.Registered? && old(cache.cache.pending) == [] && !old(cache.cache.handling)
              && config.game_names.Some? ==>
                && check.request.game_ids.Some?
                && ResolveAll(old(cache.cache.store), config.game_names.value, lookup).result
                     == Ok(check.request.game_ids.value)
      ensures !QueuedFor(old(handler.queue.queue), guildId) && config.game_names.None? ==> check.Registered?
      ensures (&& !QueuedFor(old(handler.queue.queue), guildId)
               && old(cache.cache.pending) == [] && !old(cache.cache.handling)
               && NamesResolve(config, old(cache.cache.store), lookup)) ==> check.Registered?
      ensures check.Aborted? ==> config.game_names.Some?
      ensures check.Aborted? && old(cache.cache.pending) == [] && !old(cache.cache.handling) ==>
                ResolveAll(old(cache.cache.store), config.game_names.value, lookup).result == Err(check.failure)
      ensures !check.Registered? ==> handler.queue.queue == old(handler.queue.queue) && listeners == old(listeners)
    {
      var queued := handler.HasRequestForGuild(guildId);
      if queued {
        return AlreadyQueued(config);
      }
      check := Enroll(guildId, config, lookup);
    }

    /** Lines 30-54 of `DoGuildChecks` for a guild with nothing queued: resolve the game
        names, queue the request and subscribe a listener for its hash; a failed lookup
        aborts before anything is queued. With the cache's worker free and its queue empty,
        the guild is registered exactly when its game names resolve. */
    method Enroll(guildId: ULong, config: GuildConfig, lookup: string -> Option<string>) returns (check: GuildCheck)
      requires cache.Valid() && handler.Valid()
      requires forall i :: 0 <= i < |handler.queue.queue| ==> handler.queue.queue[i].guild_id != guildId
      modifies this, cache.cache, handler.queue
      ensures cache.Valid() && handler.Valid()
      ensures sentStreams == old(sentStreams) && outbox == old(outbox)
      ensures check.Registered? || check.Aborted?
      ensures check.Registered? ==>
                && check.listener == Listener(Fingerprint(check.request), config, guildId)
                && check.request == BuildRequest(guildId, config, check.request.game_ids)
                && handler.queue.queue == old(handler.queue.queue) + [check.request]
                && listeners == old(listeners) + [check.listener]
      ensures check.Registered? && config.game_names.None? ==> check.request.game_ids.None?
      ensures check.Registered? && old(cache.cache.pending) == [] && !old(cache.cache.handling)
              && config.game_names.Some? ==>
                && check.request.game_ids.Some?
                && ResolveAll(old(cache.cache.store), config.game_names.value, lookup).result
                     == Ok(check.request.game_ids.value)
      ensures config.game_names.None? ==> check.Registered?
      ensures (&& old(cache.cache.pending) == [] && !old(cache.cache.handling)
               && NamesResolve(config, old(cache.cache.store), lookup)) ==> check.Registered?
      ensures check.Aborted? ==> config.game_names.Some?
      ensures check.Aborted? && old(cache.cache.pending) == [] && !old(cache.cache.handling) ==>
                ResolveAll(old(cache.cache.store), config.game_names.value, lookup).result == Err(check.failure)
      ensures check.Aborted? ==> handler.queue.queue == old(handler.queue.queue) && listeners == old(listeners)
    {
      var gameIds := cache.ParseGameNames(config.game_names, lookup);
      if gameIds.Err? {
        return Aborted(gameIds.error);
      }
      var listener, request := Subscribe(guildId, config, gameIds.value);
      listeners := listeners + [listener];
      check := Registered(listener, request);
    }

    /** Lines 30-38 of `DoGuildChecks`: build the guild's request and queue it; the hash
        `AddRequest` hands back is what the guild's listener will listen for. */
    method Subscribe(guildId: ULong, config: GuildConfig, gameIds: Option<seq<string>>)
      returns (listener: Listener, request: StreamGrabRequest)
      requires handler.Valid()
      requires forall i :: 0 <= i < |handler.queue.queue| ==> handler.queue.queue[i].guild_id != guildId
      modifies handler.queue
      ensures handler.Valid()
      ensures request == BuildRequest(guildId, config, gameIds)
      ensures listener == Listener(Fingerprint(request), config, guildId)
      ensures handler.queue.queue == old(handler.queue.queue) + [request]
    {
      request := BuildRequest(guildId, config, gameIds);
      assert request !in handler.queue.members;
      var listeningId := handler.AddRequest(request);
      listener := Listener(listeningId, config, guildId);
    }

    /** The body of the `foreach` in `DoGuildChecks` for one guild: the row `LoadConfig`
        reads off the database's answers decides the check. A failed cast, a missing row or
        a failed game lookup aborts the pass; an await that never completes stalls it. */
    method CheckGuild(guildId: ULong, lookup: string -> Option<string>) returns (check: GuildCheck)
      requires Valid()
      modifies this, configs.wrapper.configs, cache.cache, handler.queue
      ensures Valid()
      ensures sentStreams == old(sentStreams) && outbox == old(outbox)
      ensures var waiters := configs.wrapper.configs.waiters;
              var before := |old(configs.wrapper.configs.waiters)|;
              && |waiters| > before && KeepsWaiters(old(configs.wrapper.configs.waiters), waiters)
              && WaitingOn(waiters, before, NatToString(guildId))
      ensures var waiters := configs.wrapper.configs.waiters;
              DecidedBy(check, LoadedFrom(waiters[|old(configs.wrapper.configs.waiters)|].answer, waiters[|waiters| - 1].answer),
                        QueuedFor(old(handler.queue.queue), guildId),
                        old(cache.cache.pending) == [] && !old(cache.cache.handling), old(cache.cache.store), lookup)
      ensures CheckJustified(check, guildId, configs.wrapper.configs.waiters, |old(configs.wrapper.configs.waiters)|,
                             |configs.wrapper.configs.waiters|, handler.queue.queue)
      ensures check.Registered? ==>
                && (forall i :: 0 <= i < |old(handler.queue.queue)| ==> old(handler.queue.queue)[i].guild_id != guildId)
                && handler.queue.queue == old(handler.queue.queue) + [check.request]
                && listeners == old(listeners) + [check.listener]
      ensures !check.Registered? ==> handler.queue.queue == old(handler.queue.queue) && listeners == old(listeners)
    {
      var loaded := LoadConfig(guildId);
      ghost var waiters := configs.wrapper.configs.waiters;
      ghost var last := |waiters| - 1;
      if loaded.Err? {
        return Aborted(loaded.error);
      }
      if loaded.value.None? {
        return NoConfig;
      }
      var config := loaded.value.value;
      if !(IsSendingStreams(config) && config.stream_channel.Some?) {
        return NotEligible(config);
      }
      check := Register(guildId, config, lookup);
      if check.Registered? {
        assert handler.queue.queue[|handler.queue.queue| - 1] == check.request;
      }
    }

    /** `DoGuildChecks`: one pass over the guilds the client is in, stopped by the first
        failure. `checks` records how each guild visited ended: all of them without a
        failure, otherwise up to the guild whose check aborted the pass; `turns` marks where
        each guild's waiters begin and end, so each check rests on its own turn's answers. */
    method DoGuildChecks(guildIds: seq<ULong>, lookup: string -> Option<string>)
      returns (failure: Option<Failure>, ghost checks: seq<GuildCheck>, ghost turns: seq<nat>)
      requires Valid()
      modifies this, configs.wrapper.configs, cache.cache, handler.queue
      ensures Valid()
      ensures sentStreams == old(sentStreams) && outbox == old(outbox)
      ensures |checks| <= |guildIds|
      ensures failure.None? ==> |checks| == |guildIds|
      ensures failure.Some? ==> |checks| > 0 && checks[|checks| - 1] == Aborted(failure.value)
      ensures forall k :: 0 <= k < |checks| && (failure.None? || k < |checks| - 1) ==> !checks[k].Aborted?
      ensures AllJustified(checks, guildIds, turns, configs.wrapper.configs.waiters, handler.queue.queue)
      ensures turns[0] == |old(configs.wrapper.configs.waiters)|
      ensures listeners == old(listeners) + Registrations(checks)
      ensures RegisteredInOrder(old(handler.queue.queue), handler.queue.queue, Registrations(checks), guildIds)
    {
      failure := None;
      checks := [];
      turns := [|configs.wrapper.configs.waiters|];
      for i := 0 to |guildIds|
        invariant Valid()
        invariant sentStreams == old(sentStreams) && outbox == old(outbox)
        invariant |checks| == i && forall k :: 0 <= k < i ==> !checks[k].Aborted?
        invariant AllJustified(checks, guildIds, turns, configs.wrapper.configs.waiters, handler.queue.queue)
        invariant turns[0] == |old(configs.wrapper.configs.waiters)|
        invariant listeners == old(listeners) + Registrations(checks)
        invariant RegisteredInOrder(old(handler.queue.queue), handler.queue.queue, Registrations(checks), guildIds)
      {
        var check := PassTurn(guildIds, i, lookup, old(handler.queue.queue), old(listeners), checks, turns);
        checks := checks + [check];
        turns := turns + [|configs.wrapper.configs.waiters|];
        if check.Aborted? {
          return Some(check.failure), checks, turns;
        }
      }
    }

    /** One turn of the loop in `DoGuildChecks`, as the pass sees it: the checks so far,
        extended by this guild's, stay justified, the listeners stay those the checks
        subscribed, and the registrations stay in order. */
    method PassTurn(guildIds: seq<ULong>, i: nat, lookup: string -> Option<string>,
                    ghost base: seq<StreamGrabRequest>, ghost known: seq<Listener>, ghost done: seq<GuildCheck>,
                    ghost turns: seq<nat>)
      returns (check: GuildCheck)
      requires Valid() && i < |guildIds| && |done| == i
      requires forall k :: 0 <= k < i ==> !done[k].Aborted?
      requires AllJustified(done, guildIds, turns, configs.wrapper.configs.waiters, handler.queue.queue)
      requires listeners == known + Registrations(done)
      requires RegisteredInOrder(base, handler.queue.queue, Registrations(done), guildIds)
      modifies this, configs.wrapper.configs, cache.cache, handler.queue
      ensures Valid()
      ensures sentStreams == old(sentStreams) && outbox == old(outbox)
      ensures AllJustified(done + [check], guildIds, turns + [|configs.wrapper.configs.waiters|],
                           configs.wrapper.configs.waiters, handler.queue.queue)
      ensures listeners == known + Registrations(done + [check])
      ensures RegisteredInOrder(base, handler.queue.queue, Registrations(done + [check]), guildIds)
    {
      ghost var waiters := configs.wrapper.configs.waiters;
      ghost var queue := handler.queue.queue;
      ghost var subscribed := listeners;
      check := CheckInTurn(guildIds[i], lookup);
      assert handler.queue.queue[..|queue|] == queue;
      AllJustifiedStep(done, guildIds, turns, check, waiters, configs.wrapper.configs.waiters, queue, handler.queue.queue);
      ListenersStep(done, check, known, subscribed, listeners);
      RegistrationsStep(done, guildIds, check, base, queue, handler.queue.queue);
    }

    /** One turn of the loop in `DoGuildChecks`: the guild's check, with the facts the pass
        keeps from it. The check is justified by the answers of this turn and the queue, the earlier
        answers and requests stay, and a registration queues one request of its own and
        subscribes its listener. This is `CheckGuild` with fewer ensures: it exists only so
        that the loop's proof does not carry `DecidedBy` and its `ResolveAll` terms. */
    method CheckInTurn(guildId: ULong, lookup: string -> Option<string>) returns (check: GuildCheck)
      requires Valid()
      modifies this, configs.wrapper.configs, cache.cache, handler.queue
      ensures Valid()
      ensures sentStreams == old(sentStreams) && outbox == old(outbox)
      ensures KeepsWaiters(old(configs.wrapper.configs.waiters), configs.wrapper.configs.waiters)
      ensures CheckJustified(check, guildId, configs.wrapper.configs.waiters, |old(configs.wrapper.configs.waiters)|,
                             |configs.wrapper.configs.waiters|, handler.queue.queue)
      ensures check.Registered? ==>
                && check.listener.guildId == guildId && check.request.guild_id == guildId
                && check.listener.listeningId == Fingerprint(check.request) && Eligible(check.listener.config)
                && (forall i :: 0 <= i < |old(handler.queue.queue)| ==> old(handler.queue.queue)[i].guild_id != guildId)
                && handler.queue.queue == old(handler.queue.queue) + [check.request]
                && listeners == old(listeners) + [check.listener]
      ensures !check.Registered? ==> handler.queue.queue == old(handler.queue.queue) && listeners == old(listeners)
    {
      check := CheckGuild(guildId, lookup);
    }

    /** The listener lambda of `DoGuildChecks`, run for one broadcast: a broadcast for
        another hash is ignored. */
    method Listen(listener: Listener, hash: string, streams: seq<Stream>)
      modifies this
      ensures var notices := Heard(old(sentStreams), listener, hash, streams);
              sentStreams == old(sentStreams) + NoticeIds(notices) && outbox == old(outbox) + notices
      ensures listeners == old(listeners)
    {
      if listener.listeningId == hash {
        Deliver(listener, streams);
      } else {
        assert NoticeIds([]) == [];
        assert sentStreams + [] == sentStreams && outbox + [] == outbox;
      }
    }

    /** Lines 44-50 of `DoGuildChecks`: every stream of the broadcast whose id is not yet
        recorded is recorded and announced to the listener's guild. */
    method Deliver(listener: Listener, streams: seq<Stream>)
      modifies this
      ensures var notices := DeliverStreams(old(sentStreams), listener, streams);
              sentStreams == old(sentStreams) + NoticeIds(notices) && outbox == old(outbox) + notices
      ensures listeners == old(listeners)
    {
      ghost var sent := sentStreams;
      ghost var notices: seq<Notice> := [];
      for i := 0 to |streams|
        invariant listeners == old(listeners)
        invariant notices == DeliverStreams(sent, listener, streams[..i])
        invariant sentStreams == sent + NoticeIds(notices)
        invariant outbox == old(outbox) + notices
      {
        var stream := streams[i];
        assert streams[..i + 1][..i] == streams[..i];
        if stream.id !in sentStreams {
          var notice := Notice(listener.guildId, listener.config, stream);
          NoticeIdsConcat(notices, [notice]);
          sentStreams := sentStreams + [stream.id];
          outbox := outbox + [notice];
          notices := notices + [notice];
        }
      }
      assert streams[..|streams|] == streams;
    }

    /** Raising `StreamsGrabbed`: every listener runs, in subscription order, and the record
        stays free of repeats. */
    method OnStreamsGrabbed(hash: string, response: StreamResponse)
      requires NoDuplicates(sentStreams)
      modifies this
      ensures var notices := Announcements(old(sentStreams), listeners, hash, response.data);
              sentStreams == old(sentStreams) + NoticeIds(notices) && outbox == old(outbox) + notices
      ensures NoDuplicates(sentStreams)
      ensures listeners == old(listeners)
    {
      RunListeners(hash, response.data);
      BroadcastNoDuplicates(old(sentStreams), listeners, hash, response.data);
    }

    /** The invocation list of `StreamsGrabbed`, walked in subscription order. */
    method RunListeners(hash: string, streams: seq<Stream>)
      modifies this
      ensures var notices := Announcements(old(sentStreams), listeners, hash, streams);
              sentStreams == old(sentStreams) + NoticeIds(notices) && outbox == old(outbox) + notices
      ensures listeners == old(listeners)
    {
      var subscribers := listeners;
      ghost var sent := sentStreams;
      ghost var notices: seq<Notice> := [];
      assert subscribers[..0] == [];
      for j := 0 to |subscribers|
        invariant listeners == subscribers
        invariant notices == Announcements(sent, subscribers[..j], hash, streams)
        invariant sentStreams == sent + NoticeIds(notices)
        invariant outbox == old(outbox) + notices
      {
        notices := RunListener(sent, old(outbox), subscribers, j, hash, streams, notices);
      }
      assert subscribers[..|subscribers|] == subscribers;
    }

    /** One turn of the invocation list: the `j`-th subscriber runs on the record the
        earlier ones left. */
    method RunListener(ghost sent: seq<string>, ghost out: seq<Notice>, subscribers: seq<Listener>, j: nat, hash: string,
                       streams: seq<Stream>, ghost notices: seq<Notice>)
      returns (ghost next: seq<Notice>)
      requires j < |subscribers|
      requires notices == Announcements(sent, subscribers[..j], hash, streams)
      requires sentStreams == sent + NoticeIds(notices) && outbox == out + notices
      modifies this
      ensures next == Announcements(sent, subscribers[..j + 1], hash, streams)
      ensures sentStreams == sent + NoticeIds(next) && outbox == out + next
      ensures listeners == old(listeners)
    {
      var listener := subscribers[j];
      AnnouncementsStep(sent, subscribers, j, hash, streams);
      ghost var more := Heard(sentStreams, listener, hash, streams);
      RecordGrows(sent, notices, more);
      Listen(listener, hash, streams);
      next := notices + more;
    }
  }

  /** One more listener of a broadcast: its loop runs on the record the earlier ones left. */
  lemma AnnouncementsStep(sent: seq<string>, listeners: seq<Listener>, j: nat, hash: string, streams: seq<Stream>)
    requires j < |listeners|
    ensures var prev := Announcements(sent, listeners[..j], hash, streams);
            Announcements(sent, listeners[..j + 1], hash, streams)
              == prev + Heard(sent + NoticeIds(prev), listeners[j], hash, streams)
  {
    assert listeners[..j + 1][..j] == listeners[..j];
    var prev := Announcements(sent, listeners[..j], hash, streams);
    assert prev + [] == prev;
  }

  /** Recording a listener's announcements after earlier ones. */
  lemma RecordGrows(sent: seq<string>, notices: seq<Notice>, more: seq<Notice>)
    ensures (sent + NoticeIds(notices)) + NoticeIds(more) == sent + NoticeIds(notices + more)
  {
    NoticeIdsConcat(notices, more);
  }

  /** A guild registered after the queue state `queue` extends the pass's registrations. */
  lemma RegisteredStep(before: seq<StreamGrabRequest>, queue: seq<StreamGrabRequest>, added: seq<Listener>,
                       guildIds: seq<ULong>, request: StreamGrabRequest, listener: Listener)
    requires RegisteredInOrder(before, queue, added, guildIds)
    requires request.guild_id == listener.guildId && Fingerprint(request) == listener.listeningId
    requires Eligible(listener.config) && listener.guildId in guildIds
    requires forall i :: 0 <= i < |queue| ==> queue[i].guild_id != listener.guildId
    ensures RegisteredInOrder(before, queue + [request], added + [listener], guildIds)
  {
    var after := queue + [request];
    var more := added + [listener];
    assert after[..|before|] == queue[..|before|];
    forall k | 0 <= k < |more|
      ensures && after[|before| + k].guild_id == more[k].guildId
              && Fingerprint(after[|before| + k]) == more[k].listeningId
              && Eligible(more[k].config) && more[k].guildId in guildIds
              && forall i :: 0 <= i < |before| + k ==> after[i].guild_id != more[k].guildId
    {
      if k < |added| {
        assert more[k] == added[k];
        assert after[|before| + k] == queue[|before| + k];
        assert forall i :: 0 <= i < |before| + k ==> after[i] == queue[i];
      } else {
        assert after[|before| + k] == request;
        assert forall i :: 0 <= i < |before| + k ==> after[i] == queue[i];
      }
    }
  }

  // ---------------------------------------------------------------------------
  // The thumbnail address (stream.cs:84)
  // ---------------------------------------------------------------------------

  /** `s.Replace(pattern, rep)`: every non-overlapping occurrence, scanned left to right. The
      pattern is never empty here (.NET rejects an empty one). */
  function Replace(s: string, pattern: string, rep: string): string
    requires pattern != []
    decreases |s|
  {
    if |s| < |pattern| then s
    else if s[..|pattern|] == pattern then rep + Replace(s[|pattern|..], pattern, rep)
    else [s[0]] + Replace(s[1..], pattern, rep)
  }

  /** Text without the pattern's first character passes through unchanged. */
  lemma {:induction false} ReplaceUntouched(s: string, pattern: string, rep: string)
    requires pattern != [] && pattern[0] !in s
    ensures Replace(s, pattern, rep) == s
    decreases |s|
  {
    if |s| >= |pattern| {
      assert s[..|pattern|][0] == s[0];
      ReplaceUntouched(s[1..], pattern, rep);
      assert [s[0]] + s[1..] == s;
    }
  }

  /** Text without the pattern's first character is copied, and the scan goes on after it. */
  lemma {:induction false} ReplaceKeepsPrefix(a: string, s: string, pattern: string, rep: string)
    requires pattern != [] && pattern[0] !in a
    ensures Replace(a + s, pattern, rep) == a + Replace(s, pattern, rep)
    decreases |a|
  {
    if a != [] {
      var x := a + s;
      if |x| < |pattern| {
        assert Replace(s, pattern, rep) == s;
      } else {
        assert x[..|pattern|][0] == a[0];
        assert x[1..] == a[1..] + s;
        ReplaceKeepsPrefix(a[1..], s, pattern, rep);
        assert [a[0]] + a[1..] == a;
      }
    } else {
      assert a + s == s;
    }
  }

  /** An occurrence at the start is replaced and the scan goes on after it. */
  lemma ReplaceAtStart(pattern: string, b: string, rep: string)
    requires pattern != []
    ensures Replace(pattern + b, pattern, rep) == rep + Replace(b, pattern, rep)
  {
    var s := pattern + b;
    assert s[..|pattern|] == pattern && s[|pattern|..] == b;
  }

  /** An occurrence preceded by text without the pattern's first character is replaced in
      place, and the scan goes on after it. */
  lemma ReplaceSplices(a: string, pattern: string, rep: string, b: string)
    requires pattern != [] && pattern[0] !in a
    ensures Replace(a + pattern + b, pattern, rep) == a + rep + Replace(b, pattern, rep)
  {
    assert a + pattern + b == a + (pattern + b);
    ReplaceKeepsPrefix(a, pattern + b, pattern, rep);
    ReplaceAtStart(pattern, b, rep);
  }

  /** The image address of an announcement: the template's `{width}` becomes 1920 and its
      `{height}` becomes 1080. */
  function ThumbnailUrl(template: string): string
  {
    Replace(Replace(template, "{width}", "1920"), "{height}", "1080")
  }

  /** A text that opens like the pattern but differs from it before the pattern ends, and
      holds the pattern's first character nowhere else, is left as it is. */
  lemma ReplaceNearMiss(s: string, pattern: string, rep: string, i: nat)
    requires pattern != [] && 0 < i < |pattern| && i < |s| && s[i] != pattern[i]
    requires pattern[0] !in s[1..]
    ensures Replace(s, pattern, rep) == s
  {
    if |s| >= |pattern| {
      assert s[..|pattern|][i] == s[i];
    }
    ReplaceUntouched(s[1..], pattern, rep);
    assert [s[0]] + s[1..] == s;
  }

  /** The `{width}` pass leaves `{height}` and the text after it alone. */
  lemma WidthPassesHeight(tail: string)
    requires '{' !in tail
    ensures Replace("{height}" + tail, "{width}", "1920") == "{height}" + tail
  {
    var s := "{height}" + tail;
    assert s[1] == 'h';
    assert s[1..] == "height}" + tail;
    assert '{' !in "height}";
    ReplaceNearMiss(s, "{width}", "1920", 1);
  }

  /** A Twitch thumbnail template, with both placeholders and no other '{', becomes the
      1920 by 1080 address. */
  lemma ThumbnailOfTemplate(head: string, middle: string, tail: string)
    requires '{' !in head && '{' !in middle && '{' !in tail
    ensures ThumbnailUrl(head + "{width}" + middle + "{height}" + tail) == head + "1920" + middle + "1080" + tail
  {
    WidthPassesHeight(tail);
    assert '{' !in "1920";
    ReplaceBoth(head, "{width}", "1920", middle, "{height}", "1080", tail);
    ReplaceUntouched(tail, "{height}", "1080");
  }

  /** Two passes over a text holding one occurrence of each pattern, the first before the
      second, replace both in place when the first pass leaves the second pattern alone. */
  lemma ReplaceBoth(head: string, first: string, firstRep: string, middle: string,
                    second: string, secondRep: string, tail: string)
    requires first != [] && second != []
    requires first[0] !in head && first[0] !in middle
    requires second[0] !in head && second[0] !in firstRep && second[0] !in middle
    requires Replace(second + tail, first, firstRep) == second + tail
    ensures Replace(Replace(head + first + middle + second + tail, first, firstRep), second, secondRep)
            == head + firstRep + middle + secondRep + Replace(tail, second, secondRep)
  {
    var rest := second + tail;
    assert head + first + middle + second + tail == head + first + (middle + rest);
    ReplaceSplices(head, first, firstRep, middle + rest);
    ReplaceKeepsPrefix(middle, rest, first, firstRep);
    var once := head + firstRep + middle;
    assert head + firstRep + (middle + rest) == once + second + tail;
    ReplaceSplices(once, second, secondRep, tail);
  }
}
