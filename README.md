# Twitch stream notification bot — core model

This project models the core of a Discord bot that tells Discord guilds when Twitch
streams they follow go live. Its classes work together like this:

- `GuildConfigHandler` keeps one configuration per guild in a database. Every database
  operation goes through `ContextWrapper`, which queues it, runs it from a worker loop and
  wakes the caller whose operation identifier matches the executed one.
- `StreamSender.DoGuildChecks` walks over the guilds. For every guild whose configuration
  says "send streams" and names a channel, it builds a `StreamGrabRequest`: `first = 100`,
  the guild's user ids and logins, and game names turned into Twitch game ids by
  `GameNameIdCache`. The request goes into the `StreamHandler`'s `UniqueQueue`, and a
  listener subscribes for that request's fingerprint.
- `StreamHandler.StartHandling` takes one request off the queue at a time, unless a token
  refresh is in progress. It turns the request into a query string and fetches it. It then
  raises `StreamsGrabbed` with the request's fingerprint and the streams. Every listener
  whose fingerprint matches announces each stream it has not announced before.
- `StreamHandler.TwitchRefresh` validates or refreshes the OAuth token against its expiry
  time.
- `Utils` supplies `Join` and the two `CreateHash` overloads. `SentStreams` is a static
  record of stream ids.

Modules follow the source files:

| module | source file |
|---|---|
| `Common` | Option/Result and small sequence helpers |
| `Structs` | the records of `structs.cs` |
| `Utils` | `utils.cs` |
| `CustomQueue` | `custom-queue.cs` |
| `GuildConfigHandler` | `guild-config-handler.cs` |
| `StreamHandler` | `stream-handler.cs` |
| `GameIdCache` | `game_id_cache.cs` |
| `ExistingStreams` | `existing_streams.cs` |
| `StreamSender` | `stream.cs` |

**Classes.** Classes whose fields the source updates in place are Dafny classes:

- `UniqueQueue`: the queue, its set and its hash dictionary.
- `Broker`: one half of `ContextWrapper`. It holds the pending operations, the table, the
  `handling` flag and the callers waiting for an answer.
- `StreamHandler`: expiry, tokens, `isRefreshing` and the queue.
- `GameNameIdCache`.
- `StreamSender`: listeners, sent stream ids and an outbox of announcements.
- `SentStreams`.

**Asynchronous code.** The source's asynchronous code is serialised:

- The database worker is a `Step` method that runs one queued operation.
- Awaiting an operation is `Await`, which steps the worker until the caller's answer
  arrives.
- Fetching streams is one `Tick` of the handling loop.
- Announcing streams is `OnStreamsGrabbed`, which runs the listeners in subscription order.

**Behaviour kept as written.** The model keeps several behaviours of the code as it
stands:

- A caller wakes on the first executed operation with its identifier, even when that
  operation is someone else's. A `GuildHasConfig` queued behind the guild's own pending
  `GuildAdded` therefore gets the insert's null result and throws.
- An insert of an existing key throws an exception that neither `catch` clause of the
  worker handles. The worker is an `async void` method started by `Task.Run`, so in the
  program that exception ends the whole process. The model stops the worker instead (see
  "Left out").
- A cache hit in `GameNameIdCache.Parse` casts a stored row to a string and throws
  `InvalidCastException`. A game name listed twice therefore fails the whole list.
- `UniqueQueue.Clear` leaves stale hashes behind.
- The `sent_streams` list of `stream.cs` is shared by all listeners of one sender. Two
  guilds that watch the same stream therefore get a single announcement, for the first
  guild subscribed.

`stream.cs` keeps its own per-instance `sent_streams` array; it does not use the static
list of `existing_streams.cs`. The model follows the code here, and `SentStreams` is
modelled on its own.

## Model

| member | source | states |
|---|---|---|
| `Utils.TrimStart` | classes/utils.cs:17 | the result is a suffix of the input that does not start with the trimmed character, and everything cut off is that character |
| `Utils.TrimEnd` | classes/utils.cs:17 | the result is a prefix that does not end with the trimmed character, and everything cut off is that character |
| `Utils.Trim` | classes/utils.cs:17 | the result is no longer than the input and neither starts nor ends with the trimmed character |
| `Utils.TrimUntouched` | classes/stream-handler.cs:215 | trimming a text that neither starts nor ends with the character changes nothing |
| `Utils.Split` | classes/stream-handler.cs:177 | splitting gives at least one piece, and no piece contains the separator |
| `Utils.NatToString` | classes/guild-config-handler.cs:320 | the decimal text of a guild id has at least one digit (two from 10 up) and ends with the digit n mod 10 |
| `Utils.NatToStringInjective` | classes/guild-config-handler.cs:320 | distinct guild ids give distinct operation identifiers |
| `Utils.Joined` | classes/utils.cs:9-19 | an empty list joins to the empty text, and a joined text never starts or ends with the separator |
| `Utils.Join` | classes/utils.cs:9-19 | the append-item-then-separator loop followed by `Trim(separator)` computes `Joined` |
| `Utils.JoinedIsInterleaved` | classes/utils.cs:9-19 | when the first and last items are non-empty and no item holds the separator, `Join` is the items with one separator between neighbours |
| `Utils.SplitJoinRoundTrip` | classes/stream-handler.cs:147-177 | splitting the joined list of a request gives the original list back, for lists whose end items are non-empty and separator-free |
| `Utils.JoinDropsLeadingEmpty` | classes/utils.cs:17 | an empty first item vanishes from the joined text (the trim eats its separator) |
| `Utils.JoinDropsTrailingEmpty` | classes/utils.cs:17 | an empty last item vanishes from the joined text |
| `Utils.EmptyListSplitsToOneEmptyPiece` | classes/stream-handler.cs:148-177 | an empty list joins to "" and splits back into one empty piece, not into no pieces |
| `Utils.DigestIdentifiesInput` | classes/utils.cs:21-28 | the intended digest is equal for two inputs exactly when the inputs are equal |
| `Utils.DotNetDigestCollides` | classes/utils.cs:48 | as written, a request filtering on game id "1" and one filtering on user id "1" have different inputs but the same hash text |
| `Utils.FingerprintIgnoresGuild` | classes/utils.cs:30-49 | the request hash does not depend on the guild id |
| `Utils.FingerprintMatchesCanonicalInput` | classes/utils.cs:30-49 | two requests share a hash exactly when their labelled field texts agree |
| `Utils.CreateHashOfNames` | classes/utils.cs:21-28 | the names overload hashes the names joined with ';' |
| `Utils.CreateHash` | classes/utils.cs:30-49 | the request overload appends each present field with its label in the fixed order and returns the request's fingerprint |
| `CustomQueue.UniqueQueue.constructor` | classes/custom-queue.cs:17-22 | a new queue is empty, with no members and no hashes |
| `CustomQueue.UniqueQueue.Count` | classes/custom-queue.cs:77 | the count is the number of distinct queued requests |
| `CustomQueue.UniqueQueue.Enqueue` | classes/custom-queue.cs:24-34 | a new request goes to the back with its fingerprint recorded; a queued one changes nothing and returns its recorded hash |
| `CustomQueue.UniqueQueue.Dequeue` | classes/custom-queue.cs:36-51 | an empty queue gives the "Queue is empty." error and no change; otherwise the front request comes out with its fingerprint and leaves the queue, the set and the hash dictionary |
| `CustomQueue.UniqueQueue.Peek` | classes/custom-queue.cs:53-60 | the front request, or the empty-queue error |
| `CustomQueue.UniqueQueue.Contains` | classes/custom-queue.cs:62-65 | true exactly when the request is queued |
| `CustomQueue.UniqueQueue.ContainsMatching` | classes/custom-queue.cs:67-70 | true exactly when some queued request satisfies the predicate |
| `CustomQueue.UniqueQueue.GetHash` | classes/custom-queue.cs:72-75 | a queued request's hash is its fingerprint, and there is no hash exactly when the dictionary lacks the request |
| `CustomQueue.UniqueQueue.Clear` | classes/custom-queue.cs:79-83 | the queue and the set are emptied while the hash dictionary is kept |
| `CustomQueue.StaleHashAfterClear` | classes/custom-queue.cs:79-83 | after Clear a request is neither counted nor contained, yet GetHash still returns its old hash |
| `CustomQueue.FifoAndRequeue` | classes/custom-queue.cs:24-51 | requests leave in arrival order, and a dequeued request can be queued again |
| `GuildConfigHandler.SetSendingStreams` | classes/guild-config-handler.cs:24-30 | the setter stores "true" or "false" and touches no other column |
| `GuildConfigHandler.SendingStreamsRoundTrip` | classes/guild-config-handler.cs:24-30 | reading the flag back gives the value just set |
| `GuildConfigHandler.SendingStreamsOnlyExactTrue` | classes/guild-config-handler.cs:27 | the flag is on exactly when the column holds "true"; a missing column reads as off |
| `GuildConfigHandler.Execute` | classes/guild-config-handler.cs:170-187 | running an operation keeps its identifier, kind and data, and keeps every row filed under its own key |
| `GuildConfigHandler.ExecuteContains` | classes/guild-config-handler.cs:178-180 | Contains answers whether the key has a row and leaves the table alone |
| `GuildConfigHandler.ExecuteRetrieve` | classes/guild-config-handler.cs:175-177 | Retrieve returns the row; a missing row leaves the result null (the exception is swallowed) |
| `GuildConfigHandler.InsertThenContainsSeesRow` | classes/guild-config-handler.cs:172-180 | after inserting a new key, Contains for it answers true |
| `GuildConfigHandler.DeleteIdempotent` | classes/guild-config-handler.cs:181-183 | deleting twice leaves the same table as deleting once |
| `GuildConfigHandler.FirstWith` | classes/guild-config-handler.cs:208-210 | finds the first pending operation with the identifier, and no earlier one has it; None when none does |
| `GuildConfigHandler.SubmissionAnsweredBy` | classes/guild-config-handler.cs:204-233 | a submission of the same kind as a pending one with its identifier is not queued again but shares that answer; otherwise the operation is queued and answered |
| `GuildConfigHandler.Announce` | classes/guild-config-handler.cs:235-242 | every still-waiting caller with the executed identifier receives the executed operation; the others are untouched |
| `GuildConfigHandler.Broker.constructor` | classes/guild-config-handler.cs:93-107 | a new wrapper holds the rows the database file already has, each under its own key, with nothing pending, no waiters and not handling |
| `GuildConfigHandler.Broker.DoOperation` | classes/guild-config-handler.cs:204-233 | registers a waiter for the identifier, and queues the operation unless a same-kind one with that identifier is pending |
| `GuildConfigHandler.Broker.Step` | classes/guild-config-handler.cs:160-202 | idle while handling or empty; otherwise runs the front operation, and either announces it and clears `handling` or, on a fault, leaves `handling` set for good |
| `GuildConfigHandler.Broker.Await` | classes/guild-config-handler.cs:244-250 | the answer is the one delivered to this waiter with its identifier; earlier answers are kept; no answer only once the worker is stuck |
| `GuildConfigHandler.ContextWrapper.constructor` | classes/guild-config-handler.cs:64-107 | both tables start with the rows the database file already holds (rows persist between runs, since only missing tables are created), keyed by guild id and by game name |
| `GuildConfigHandler.CastToBool` | classes/guild-config-handler.cs:379 | a flag result casts to its value; a null result throws NullReferenceException |
| `GuildConfigHandler.CastToConfig` | classes/guild-config-handler.cs:366 | a row casts to the configuration, null to no configuration, and a flag fails |
| `GuildConfigHandler.GuildAddedOp` | classes/guild-config-handler.cs:316-329 | an insert keyed by the decimal guild id of a new configuration with streaming off |
| `GuildConfigHandler.GuildKeyOp` | classes/guild-config-handler.cs:331-378 | an operation of the given kind keyed by the decimal guild id, carrying only the guild id |
| `GuildConfigHandler.UpdateConfigOp` | classes/guild-config-handler.cs:382-391 | an update keyed by the configuration's guild id that carries the whole configuration |
| `GuildConfigHandler.DifferentGuildsNeverShareIdentifier` | classes/guild-config-handler.cs:316-343 | operations for different guilds never wake each other's callers |
| `GuildConfigHandler.HasConfigBehindPendingInsertGetsInsert` | classes/guild-config-handler.cs:204-243 | on the pending queue alone: a Contains submitted behind the same guild's pending insert is not coalesced with it, the insert is the first pending operation with its identifier, and the insert's null result makes the bool cast throw |
| `GuildConfigHandler.GuildConfigHandler.GuildAddedThenHasConfig` | classes/guild-config-handler.cs:170-243 | `GuildAdded` then `GuildHasConfig` on an idle worker: for a new guild the Contains caller is woken by the insert and the bool cast throws NullReferenceException while the row is stored; for a guild that has a row the insert faults, the worker stops and the await never completes |
| `GuildConfigHandler.GuildConfigHandler.constructor` | classes/guild-config-handler.cs:304-314 | the handler keeps the wrapper it is given |
| `GuildConfigHandler.GuildConfigHandler.GuildAdded` | classes/guild-config-handler.cs:316-329 | submits the insert of a default configuration (queued unless it coalesces) and registers one waiter on the guild's identifier; the table and the worker's flag change only when the worker runs |
| `GuildConfigHandler.GuildConfigHandler.GuildRemoved` | classes/guild-config-handler.cs:331-343 | submits the delete of the guild's configuration (queued unless it coalesces) and registers one waiter on the guild's identifier; the table and the worker's flag are unchanged |
| `GuildConfigHandler.GuildConfigHandler.UpdateConfig` | classes/guild-config-handler.cs:382-391 | submits the update carrying the whole configuration (queued unless it coalesces) and registers one waiter on the guild's identifier; the table and the worker's flag are unchanged |
| `GuildConfigHandler.GuildConfigHandler.GuildHasConfig` | classes/guild-config-handler.cs:369-380 | asks once under the guild's identifier and keeps earlier answers; the result is the bool cast of the answer, or never completing when none comes; with a free worker whose front operation has the guild's identifier, that operation's execution on the table decides it |
| `GuildConfigHandler.GuildConfigHandler.RetrieveConfig` | classes/guild-config-handler.cs:345-367 | asks once and, when the result is null, asks a second time, all under the guild's identifier; returns the cast of the last answer |
| `GuildConfigHandler.Broker.Submit` | classes/guild-config-handler.cs:204-250 | an awaited submission adds one waiter on the operation's identifier, keeps the earlier waiters, and returns that waiter's answer |
| `StreamHandler.GrabRequestDictEntries` | classes/stream-handler.cs:138-154 | the dictionary holds a key exactly when the request's field is present, with the field's text (lists joined with ';') |
| `StreamHandler.DeserializeGrabRequest` | classes/stream-handler.cs:138-154 | the six conditional adds build exactly that dictionary |
| `StreamHandler.UrlParams` | classes/stream-handler.cs:156-218 | the query starts with '?', and what follows neither starts nor ends with '&' |
| `StreamHandler.EmptyRequestQuery` | classes/stream-handler.cs:156-218 | a request with no fields gives "?" |
| `StreamHandler.ParamGroupIsPairs` | classes/stream-handler.cs:177-184 | the '&'-prefixed loop followed by `Trim('&')` gives the list's `name=value` pairs joined with '&' |
| `StreamHandler.QueriesOfRequest` | classes/stream-handler.cs:156-211 | the query parts come in the order after, before, first, game_id, user_id, user_login, each only when present |
| `StreamHandler.QueryIsPairsInOrder` | classes/stream-handler.cs:156-218 | for clean field values the query is "?" followed by every expected `name=value` pair in order, joined with '&' |
| `StreamHandler.TrimmedPairs` | classes/stream-handler.cs:215 | the final `Trim('&')` leaves the joined pairs of a clean request unchanged |
| `StreamHandler.QueryExample` | classes/stream-handler.cs:220-225 | first = 100 and game id 509658 give "?first=100&game_id=509658" |
| `StreamHandler.EmptyListYieldsEmptyParam` | classes/stream-handler.cs:175-186 | an empty game id list gives the query "?game_id=" |
| `StreamHandler.AppendListParams` | classes/stream-handler.cs:177-184 | the loop over the split list computes the group's query text |
| `StreamHandler.CreateURLParams` | classes/stream-handler.cs:156-218 | the method computes `UrlParams` of the dictionary |
| `StreamHandler.DeserializeIntoParams` | classes/stream-handler.cs:220-225 | the query string of a request is `UrlParams` of its dictionary |
| `StreamHandler.RefreshChoiceCases` | classes/stream-handler.cs:16-30 | validate exactly when no expiry is known, refresh exactly when it has passed, otherwise wait |
| `StreamHandler.AcceptedTokenLifetime` | classes/stream-handler.cs:64 | an accepted token's expiry lies in the future; the next check waits before it and refreshes from it on |
| `StreamHandler.GrabOutcome` | classes/stream-handler.cs:268-301 | a successful fetch broadcasts the request's hash and the streams, and exactly the token-mismatch error starts a refresh |
| `StreamHandler.StreamHandler.constructor` | classes/stream-handler.cs:7-14 | no expiry, not refreshing, an empty queue and the given credentials |
| `StreamHandler.StreamHandler.AddRequest` | classes/stream-handler.cs:116-119 | enqueues the request unless it is queued, and returns its fingerprint |
| `StreamHandler.StreamHandler.HasRequestForGuild` | classes/stream-handler.cs:121-124 | true exactly when a queued request belongs to the guild |
| `StreamHandler.StreamHandler.TwitchRefresh` | classes/stream-handler.cs:16-30 | takes the branch `RefreshChoice` picks, and marks a refresh in progress when it refreshes |
| `StreamHandler.StreamHandler.CompleteValidation` | classes/stream-handler.cs:32-67 | a rejected token starts a refresh; an accepted one records its client id and sets the expiry to now plus the lifetime |
| `StreamHandler.StreamHandler.BeginRefresh` | classes/stream-handler.cs:69-71 | sets the refreshing flag and nothing else |
| `StreamHandler.StreamHandler.CompleteRefresh` | classes/stream-handler.cs:87-113 | a success stores both tokens and the new expiry, a failure keeps them, and the flag is cleared either way |
| `StreamHandler.StreamHandler.Tick` | classes/stream-handler.cs:126-136 | idle while the queue is empty or a refresh is running; otherwise dequeues the front request, fetches the URL built from it and reports the outcome |
| `StreamHandler.RefreshHoldsDispatch` | classes/stream-handler.cs:131 | a queued request is held during a refresh and dispatched once it completes |
| `GameIdCache.TrimWhiteSpaceIsSlice` | classes/game_id_cache.cs:31 | the trimmed name is the slice between the leading and trailing white space, and neither of its ends is white space |
| `GameIdCache.TrimWhiteSpaceIdempotent` | classes/game_id_cache.cs:31 | trimming twice is trimming once |
| `GameIdCache.CastToString` | classes/game_id_cache.cs:42 | a null result casts to no id, and any other result throws InvalidCastException |
| `GameIdCache.CacheHitNeverYieldsId` | classes/game_id_cache.cs:39-43 | the Retrieve branch never returns an id: casting the stored row throws |
| `GameIdCache.ResolveAll` | classes/game_id_cache.cs:13-27 | resolving a list yields at most one id per name |
| `GameIdCache.ResolveQuietlyOk` | classes/game_id_cache.cs:29-61 | an uncached name succeeds with the lookup's answer and is cached when found; a cached one fails; nothing cached is lost |
| `GameIdCache.ResolveAllFailureSticks` | classes/game_id_cache.cs:18-23 | once a name throws, the later names change neither the outcome nor the cache |
| `GameIdCache.ResolveAllKeepsCache` | classes/game_id_cache.cs:45-58 | resolving never removes or changes a cached pair |
| `GameIdCache.ResolvedIdsAreLookups` | classes/game_id_cache.cs:18-24 | a successful result is the found ids of the names in list order, with names not found skipped |
| `GameIdCache.ResolvedNamesAreCached` | classes/game_id_cache.cs:44-58 | after a successful pass every found name is cached with its id |
| `GameIdCache.RepeatedNameFails` | classes/game_id_cache.cs:18-43 | a found name listed twice makes the list fail, because its second occurrence hits the cache |
| `GameIdCache.GameNameIdCache.constructor` | classes/game_id_cache.cs:8-11 | the cache uses the wrapper's game id table |
| `GameIdCache.GameNameIdCache.ParseHit` | classes/game_id_cache.cs:39-43 | the Retrieve branch resubmits the record, whose result is still null (the struct was copied), and casts the answer's result; with a quiet worker a stored name throws InvalidCastException and a name not stored gives null |
| `GameIdCache.GameNameIdCache.ParseMiss` | classes/game_id_cache.cs:44-60 | a found id is inserted under the trimmed name and returned; a name not found returns null without touching the table |
| `GameIdCache.GameNameIdCache.Parse` | classes/game_id_cache.cs:29-61 | all branches of Contains, Retrieve, lookup and Insert; with a quiet worker the result and the table are those of `ResolveQuietly` |
| `GameIdCache.GameNameIdCache.ParseNth` | classes/game_id_cache.cs:20-22 | one loop turn extends the resolution of the list prefix by one name and appends the id when there is one |
| `GameIdCache.GameNameIdCache.ParseList` | classes/game_id_cache.cs:16-25 | every operation is keyed by the names' hash, and with a quiet worker the result and the table are those of `ResolveAll` |
| `GameIdCache.GameNameIdCache.ParseGameNames` | classes/game_id_cache.cs:13-27 | no list gives null and no operation; otherwise the result is at most one id per name and agrees with `ResolveAll` |
| `ExistingStreams.SentStreams.StreamIsSent` | classes/existing_streams.cs:7-10 | true exactly when the id was recorded |
| `ExistingStreams.SentStreams.StreamSent` | classes/existing_streams.cs:12-15 | appends the id to the record |
| `ExistingStreams.SharedBetweenInstances` | classes/existing_streams.cs:5 | an id recorded through one instance is seen through another, since the list is static |
| `StreamSender.SameListsShareFingerprint` | classes/stream.cs:30-38 | two guilds with the same filters get different requests but the same fingerprint |
| `StreamSender.DeliverStreamsNoDuplicates` | classes/stream.cs:44-51 | one listener never records the same stream id twice |
| `StreamSender.BroadcastNoDuplicates` | classes/stream.cs:40-54 | across all listeners the sent stream ids stay free of duplicates |
| `StreamSender.BroadcastSkipsRecorded` | classes/stream.cs:46 | a stream already recorded as sent is never announced again |
| `StreamSender.DeliverStreamsFromListener` | classes/stream.cs:44-50 | each announcement names the listener's guild, its configuration and one of the grabbed streams |
| `StreamSender.BroadcastOnlyToAccepting` | classes/stream.cs:42 | only listeners whose fingerprint equals the broadcast hash announce anything |
| `StreamSender.UnmatchedBroadcastIsDropped` | classes/stream.cs:42 | a hash no listener waits for produces no announcement |
| `StreamSender.StreamGoesToFirstGuildOnly` | classes/stream.cs:46-49 | when two guilds listen for the same hash, a new stream is announced to the first one only |
| `StreamSender.DeliverOne` | classes/stream.cs:46-50 | a single stream is announced exactly when its id has not been sent |
| `StreamSender.OneListenerPerGuild` | classes/stream.cs:28-38 | one pass adds at most one listener per guild, and none for a guild that already had a request queued |
| `StreamSender.StreamSender.constructor` | classes/stream.cs:7-15 | a new sender has no listeners, no sent streams and an empty outbox |
| `StreamSender.LoadedFrom` | classes/stream.cs:23-25 | no configuration exactly when the Contains answer is false; a configuration exactly when Contains answered true and the last Retrieve answered a row, which is the result; an unanswered Contains never completes and an unboxable one fails with its cast error |
| `StreamSender.StreamSender.LoadConfig` | classes/stream.cs:23-25 | the outcome is `LoadedFrom` of the Contains answer and the last Retrieve answer, all waited on under the guild's identifier, with earlier answers kept |
| `StreamSender.StreamSender.Register` | classes/stream.cs:28-54 | skipped exactly when a request of the guild was queued; otherwise a request with the resolved game ids is queued and a listener for its fingerprint is added, and on a quiet cache this happens whenever the names resolve; an abort comes only from the game names and is `ResolveAll`'s failure |
| `StreamSender.StreamSender.Enroll` | classes/stream.cs:30-54 | the request carries first = 100 and the guild's filters with the game ids `ResolveAll` gives, and is queued with its listener; no game names, or names that resolve on a quiet cache, always register; a failed resolution queues nothing and is `ResolveAll`'s failure |
| `StreamSender.StreamSender.Subscribe` | classes/stream.cs:38-54 | queues the built request at the back and subscribes a listener for its fingerprint |
| `StreamSender.StreamSender.CheckGuild` | classes/stream.cs:23-55 | the check follows from the loaded row (`DecidedBy`): a failed load aborts, no row is no config, an ineligible row is judged so, an eligible one is skipped when queued and otherwise registered unless its names fail; the check is justified by the answers of this guild's own waiters and the queue (`CheckJustified`) |
| `StreamSender.CheckJustifiedKept` | classes/stream.cs:21-56 | a check that did not abort stays justified by its own turn's answers as later waiters are added and later requests queued |
| `StreamSender.StreamSender.CheckInTurn` | classes/stream.cs:23-55 | one guild's check as the pass sees it, a slimmer contract of `CheckGuild` kept for proof cost: justified by the waiters this turn added (all on the guild's identifier, their `LoadedFrom` outcome deciding the check), earlier answers kept, and a registration queues one request of the guild and subscribes its listener |
| `StreamSender.StreamSender.PassTurn` | classes/stream.cs:21-56 | one loop turn keeps every check so far justified by its own turn, extends the turn marks by this turn's waiters, keeps the listeners equal to those the checks subscribed, and the registrations in order |
| `StreamSender.StreamSender.DoGuildChecks` | classes/stream.cs:17-68 | without a failure every guild gets a check and none aborted; with one, the last check is that abort and no earlier one aborted; the pass's waiters split into one turn per visited guild, and every check is decided by the row `LoadedFrom` reads off its own turn's first and last answers and justified by the queue; the new listeners are exactly those the checks subscribed, one per newly queued request; no stream is sent |
| `StreamSender.StreamSender.Listen` | classes/stream.cs:40-53 | a listener whose hash matches announces the unsent streams and records them; other hashes change nothing |
| `StreamSender.StreamSender.Deliver` | classes/stream.cs:44-51 | the loop announces each unsent stream once, in order, and appends its id to the sent list |
| `StreamSender.StreamSender.RunListener` | classes/stream.cs:40-53 | running the next listener extends the announcements of the earlier ones by that listener's |
| `StreamSender.StreamSender.RunListeners` | classes/stream.cs:54 | raising the event runs every listener in subscription order, producing `Announcements` |
| `StreamSender.StreamSender.OnStreamsGrabbed` | classes/stream-handler.cs:279-280 | a grabbed response is announced as `Announcements` states, and the sent list stays free of duplicates |
| `StreamSender.ThumbnailOfTemplate` | classes/stream.cs:84 | a thumbnail template gets "1920" for `{width}` and "1080" for `{height}`, and the rest is unchanged |

## Left out

- HTTP calls are parameters of the model. This covers the Twitch validate, refresh,
  streams and games endpoints. `ParseGameName` is the `lookup` function, and a fetch is a
  `string -> GrabResponse` function.
- GameIdCache.GameNameIdCache.Parse: the `lookup` never throws. Its `None` stands for the
  null `ParseGameName` returns on a failed status or a null id. When Twitch answers with
  success and an empty `data` array, `games.First` is null and `GetValue("id")` throws
  `NullReferenceException` (game_id_cache.cs:80-81). That exception passes through
  `ParseGameNames` into the `catch` of `DoGuildChecks` (stream.cs:62-65) and ends the
  pass, so the guilds after it are skipped. The model instead skips the unknown name and
  can still register the guild.
- JSON parsing is left out. `DeserializeResponse` is replaced by the structured response
  the fetch function returns.
- MD5 is replaced by `Digest`; see Findings.
- Utils.DigestIdentifiesInput: the model's `Digest` is the identity on its input, that is,
  a collision-free digest. This lemma and `Utils.FingerprintMatchesCanonicalInput` hold
  by that choice alone. A real MD5 text can collide, which the model does not capture.
- SQLite is a map keyed by the table's primary key.
- The wall clock is a `now` parameter in milliseconds.
- Writes of the credentials file and all console logging are left out.
- Discord is left out. `SendMessage` becomes a notice in the sender's outbox.
  `CreateEmbedForStream` is modelled only for the thumbnail URL, because the rest is
  formatting for Discord.
- GuildConfigHandler.Broker.Step: an uncaught exception in the worker (an insert of an
  existing key) ends the whole program, since the worker is an `async void` started by
  `Task.Run`. The model keeps running with the worker stopped, so later awaits never
  complete (`NeverCompletes`).
- Concurrency is serialised. The database worker's polling loop is `Step`, and each
  `await` is `Await`. The race between `HandleGrabRequest` and a concurrently running
  `DoRefresh` is not modelled.
- The `Task.Delay` and re-run tail of `DoGuildChecks`, `TwitchRefresh`, `StartHandling`
  and the worker loops is left out. One pass, check or step is modelled.
- The wiring of `StreamsGrabbed` to the listeners is not one method: `Tick` reports the
  outcome and `OnStreamsGrabbed` consumes it.
- StreamSender.StreamSender.OnStreamsGrabbed: with no listener it announces nothing and
  returns. In the source `StreamsGrabbed` has no initializer (stream-handler.cs:9), so
  the `Invoke` at stream-handler.cs:280 would throw `NullReferenceException` and end
  `StartHandling`. Under the serialised model this cannot happen: a request is queued
  only by `Subscribe`, in the same step that adds its listener.
- Listeners never unsubscribe, in the source or in the model.
- StreamHandler.StreamHandler.AddRequest: request equality is value equality. C# struct
  equality compares array fields by reference, but the callers never queue a request
  twice under either reading.
- Dictionary keys are a `Param` enumeration, not strings.
- Guild ids are unbounded naturals, not 64-bit.
- Token lifetimes are unbounded integers, not `long`.
- A game id pair's `id` column is always present.
- `SetupDatabase` and `EnsureDatabaseSetup` are left out; they create missing tables. The
  rows an existing database file holds are the `ContextWrapper` constructor's parameters.
- `GetHeaderValue` is left out; nothing in the core uses it.
- GameIdCache.GameNameIdCache.ParseList: with a busy database worker, its ensures states
  only the operation identifiers, the table invariant and the bound on the result. The
  full result is stated for a quiet worker, because with a busy one the answer depends on
  operations outside the call.
- GameIdCache.GameNameIdCache.ParseGameNames: states the same as `ParseList` on a busy
  worker.
- StreamSender.StreamSender.DoGuildChecks: at the level of the whole pass, an `Aborted`
  check after an eligible row is not tied to the game-name lookup that failed, and an
  `AlreadyQueued` check is tied to a request in the final queue, not to one queued before
  its turn. `CheckGuild` states both for one guild (`DecidedBy`). The guilds after an
  abort are not visited, as in the source.

## Findings

| source | as written | input that shows it | evidently intended | confidence | as-written member | corrected member |
|---|---|---|---|---|---|---|
| classes/utils.cs:27 and classes/utils.cs:48 | `hashBytes.ToString()` on a `byte[]` returns the type name "System.Byte[]", so every request and every name list gets the same hash | a request with game ids ["1"] and one with user ids ["1"] for the same guild | a text form of the MD5 digest, equal only for equal inputs, so that each listener hears only its own request | high, not executed | `Utils.DotNetDigestCollides` | `Utils.DigestIdentifiesInput` |

With the hash as written, every listener accepts every broadcast. Only the shared
sent-stream list keeps a stream from being announced twice, and it goes to whichever guild
subscribed first (`StreamSender.StreamGoesToFirstGuildOnly`). The rest of the model uses
the corrected `Digest`.
