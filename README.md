# zamza core, modelled in Dafny

zamza sits between Kafka topics and MongoDB. It keeps a key index of the
latest message for each key, coordinates topic replays across instances,
fans messages out to webhooks, and exposes an admin HTTP API guarded by
access tokens. This project models the decision logic of that core and
proves properties of it:

- the hook dealer's topic → hook-view index (`hook_dealer.dfy`);
- the replay coordination state machine and its persisted record store
  (`replay_handler.dfy`), with the `/replay` routes in front of it
  (`replay_routes.dfy`);
- the lease lock over a document collection (`lock_model.dfy`);
- the keyed stores: the compacted key index (`key_index_model.dfy`), the
  whitelisted shared state (`state_model.dfy`) and the hook collection
  (`hook_model.dfy`);
- the access configuration and its allow/deny decisions (`access_control.dfy`);
- change detection over topic lists, in the broker topic discovery
  (`discovery.dfy`) and in the topic-configuration poller (`mongo_poller.dfy`);
- the admin guard chains for topic configurations, hooks and the key index
  (`topic_config_routes.dfy`, `hook_routes.dfy`, `manage_routes.dfy`).

Shared modules:

- `Wrappers`: `Option`, `Result` and JavaScript truthiness of an optional string.
- `Entities`: messages, topic configurations, hooks and subscriptions.
- `DocStore`: the MongoDB operators the models call. A collection is a
  sequence of rows in natural order:
  - `findOne` returns the first match;
  - `findOneAndUpdate` with upsert rewrites the first match, or appends the insert;
  - `deleteOne` drops the first match;
  - `deleteMany` (and `remove`) keeps exactly the rows that do not match.
- `Strings`: lexicographic order, insertion sort, `join`, decimal rendering.
- `Seqs`: flat-map of a sequence.

Parameters stand in for everything nondeterministic or external: the
murmur hash, `toString` of a key, uuids, the clock (`now`), and whether a
store call rejects. The same goes for the access predicates whose code lies outside
the files modelled here (`hookAccessAllowedForRequest`, `subscriptionsAllowedForRequest`,
`replayAccessAllowedForRequest`, `topicConfigAccessAllowedForRequest`) and
for the message handler's answer. Objects whose fields the source updates are
classes: the hook dealer, the replay handler, the poller, the discovery, and
the models of the collections. Their methods are proved against specification
functions of the old state.

In the zamza revision modelled here, `lib/db/models/ReplayModel.ts` has a single-row API that does not
match the calls `lib/ReplayHandler.ts` makes. The replay store is therefore
modelled from those calls: `get` and `getForInstanceId` are first matches,
`upsert` is keyed by topic, and the deletes remove every match. Likewise
`TopicConfigModel.get`, `KeyIndexModel.deleteForTopic` and
`KeyIndexModel.delete` are called by the routes but absent from that
revision's model files. The first two are modelled as a first match and as a delete by
hashed topic. The third, like the tombstone producer, is a recorded effect.
The name of the internal replay topic, `__zamza_replay_topic`, comes from
`INTERNAL_TOPICS`, which that revision's `lib/MessageHandler.ts` does not define.
The value used is the documented internal topic name.

## Model

| member | source | states |
|---|---|---|
| HookDealer.HookDealer.ProcessHookUpdate | lib/HookDealer.ts:45-91 | The code as written, over the source's `{}` index. A falsy `hooks` returns with nothing changed. Otherwise the call throws exactly when some active subscription's topic is not a name every `{}` inherits (`constructor`, `toString`, …), and then map, count and gauge are unchanged. When it completes, every topic's list holds only its last view, the count is the number of active subscriptions, and the gauge is written iff the count changed |
| HookDealer.FileSubscriptionsAsWritten | lib/HookDealer.ts:64-80 | The inner loop as written: it throws only at an active subscription whose topic the `{}` lookup does not find. Otherwise the index gains the hook's entries, each resetting its topic's list, with one endpoint per entry |
| HookDealer.LastIndexIsLastView | lib/HookDealer.ts:70-78 | The index the as-written update builds has a list for a topic iff some entry has that topic. The list is the single last view filed under it |
| HookDealer.LastIndexKeys | lib/HookDealer.ts:70-78 | Only topics of the entries get a list |
| HookDealer.HookDealer.ProcessHookUpdateIntended | lib/HookDealer.ts:45-91 | The intended update: create a missing list, then append, in a dictionary without inherited members. The new map is `Index(Entries(hooks))` and the count is the number of entries. The count and the gauge change exactly when the count differs from the previous one, and the map is swapped in on every call |
| HookDealer.FileSubscriptions | lib/HookDealer.ts:60-81 | The inner loop of the intended update extends the index by exactly the entries of the hook's enabled subscriptions, one endpoint per entry |
| HookDealer.EntriesAreActive | lib/HookDealer.ts:60-68 | Every entry comes from an enabled subscription of an enabled hook that has subscriptions |
| HookDealer.ActiveIsListed | lib/HookDealer.ts:60-79 | Every enabled subscription of an enabled hook yields its entry, so the two lemmas together characterise the entries |
| HookDealer.IndexIsViewsFor | lib/HookDealer.ts:70-79 | A topic is in the index iff some entry has it. Its list is exactly the views filed under it, in visiting order |
| HookDealer.ViewsForCount | lib/HookDealer.ts:74-79 | A topic's list is never longer than the entries, and has all of them when every entry has that topic |
| HookDealer.SubscriptionEntriesAppend | lib/HookDealer.ts:66-79 | Entries of concatenated subscription lists concatenate |
| HookDealer.SubscriptionEntriesActive | lib/HookDealer.ts:66-79 | Each entry of one hook is the view of some enabled subscription, with `ignoreReplay` copied from it |
| HookDealer.SubscriptionIsListed | lib/HookDealer.ts:66-79 | Each enabled subscription of a hook contributes its view |
| HookDealer.SingleSubscription | lib/HookDealer.ts:66-68 | A single disabled subscription contributes nothing; an enabled one contributes its view |
| HookDealer.HookDealer.FindConfigForTopic | lib/HookDealer.ts:33-43 | Null iff no polled config has the topic. Otherwise the answer has the topic and is the last such config in the list |
| HookDealer.HookDealer.HandleMessage | lib/HookDealer.ts:98-112 | Throws while no map has been published. Otherwise true iff the `{}` lookup of the message's topic finds something: a list in the map, or a member every `{}` inherits |
| HookDealer.HookDealer.HandleRetryMessage | lib/HookDealer.ts:114-128 | True iff some polled topic config has the message's topic |
| HookDealer.HookDealer.HandleReplayMessage | lib/HookDealer.ts:130-145 | True iff some polled topic config has the message's topic |
| HookDealer.HookDealer.constructor | lib/HookDealer.ts:19-31 | No map, count 0, no gauge writes |
| ReplayHandler.ReplayHandler.StartReplay | lib/ReplayHandler.ts:132-160 | With a running mirror it fails and changes nothing. Otherwise target and group are set, the group being the caller's if truthy, else a fresh `zamza-internal-mirror-` id. A failed upsert leaves no mirror and the store untouched. Else `{instanceId, topic, consumerGroup}` is upserted and the mirror runs |
| ReplayHandler.ReplayHandler.StopReplay | lib/ReplayHandler.ts:162-178 | Fails without a mirror and changes nothing. Otherwise the target topic's records are deleted and all three fields cleared |
| ReplayHandler.ReplayHandler.FlushOne | lib/ReplayHandler.ts:107-126 | Always true. The store loses the target topic's and this instance's records, and all fields are cleared |
| ReplayHandler.ReplayHandler.FlushAll | lib/ReplayHandler.ts:99-105 | Always true. The store ends empty and the handler idle |
| ReplayHandler.ReplayHandler.GetCurrentReplay | lib/ReplayHandler.ts:70-92 | The store becomes `ReconcileRows` of the old store: an own record without a mirror loses its topic's records, a mirror without a record is re-persisted at `now`, and otherwise the store is unchanged. Then it answers this instance's record, which exists whenever a mirror runs |
| ReplayHandler.RunningReconcileKeepsOwnRecord | lib/ReplayHandler.ts:79-91 | With a running mirror the clean-up always leaves a record of this instance for the final lookup |
| ReplayHandler.ReplayHandler.IsCurrentlyRunning | lib/ReplayHandler.ts:54-60 | True iff a mirror runs |
| ReplayHandler.ReplayHandler.DealsWithTopic | lib/ReplayHandler.ts:62-68 | True iff the target topic equals the argument |
| ReplayHandler.ReplayHandler.IsBeingReplayedByAnyInstance | lib/ReplayHandler.ts:94-97 | True iff some record exists for the topic |
| ReplayHandler.ReplayHandler.ListReplays | lib/ReplayHandler.ts:128-130 | Every stored record |
| ReplayHandler.ReplayHandler.MessageHandle | lib/ReplayHandler.ts:43-52 | Each mirrored message is produced to the replay topic as `{message}`, with no partition and no key. Nothing else changes |
| ReplayHandler.ReplayHandler.constructor | lib/ReplayHandler.ts:25-37 | Idle: no mirror, no target, no group |
| ReplayHandler.ConsumerGroupId | lib/ReplayHandler.ts:39-41 | The generated group starts with `zamza-internal-mirror-`, followed by the uuid |
| ReplayHandler.FlushOneClears | lib/ReplayHandler.ts:107-126 | After `flushone` no record of this instance or of its target topic remains, and every other record is kept |
| ReplayHandler.FlushOneIdempotent | lib/ReplayHandler.ts:107-126 | A second `flushone` changes nothing |
| ReplayHandler.StartedReplayIsPersisted | lib/ReplayHandler.ts:150-157 | After the upsert the record is stored and is the one a lookup by topic finds |
| ReplayHandler.IdleReconcileForgetsInstance | lib/ReplayHandler.ts:73-77 | Without a mirror, and with at most one own record, the clean-up leaves no record of this instance |
| ReplayRoutes.PostReplay | lib/api/routes/replay.ts:53-95 | Guards in order: 403 without access, 400 without a truthy topic, 400 while this instance replays, 400 while any record exists for the topic. A request past every guard answers 200 with the started replay and its running mirror, or 500 when the store call fails, which leaves the store as it was but the target topic set. Every 403/400 changes nothing |
| ReplayRoutes.DeleteReplayTopic | lib/api/routes/replay.ts:97-122 | 403, then 400 unless this instance's target is the topic (nothing changes). Then 204 with the topic's records deleted and the mirror stopped, or 500 if no mirror runs |
| ReplayRoutes.DeleteFlushAll | lib/api/routes/replay.ts:124-141 | 403 without access, else 204 with the store empty |
| ReplayRoutes.DeleteFlushOne | lib/api/routes/replay.ts:143-160 | 403 without access, else 204 after `flushone` |
| ReplayRoutes.GetReplay | lib/api/routes/replay.ts:11-19 | 200. The store becomes the reconciled store (`ReconcileRows` of the old one), and the body is this instance's record in it |
| ReplayRoutes.Dispatch | lib/api/routes/replay.ts:97-160 | Some handler runs iff some registered pattern matches the path |
| ReplayRoutes.FlushPathsReachTopicHandler | lib/api/routes/replay.ts:97-160 | As registered, `/replay/flushall` and `/replay/flushone` reach the `:topic` handler, and neither flush handler is reachable by any path |
| ReplayRoutes.IntendedOrderReachesFlush | lib/api/routes/replay.ts:97-160 | With the literal routes first, both flush paths reach their handlers and any other topic still reaches the stop handler |
| LockModel.LockModel.GetLock | lib/db/models/LockModel.ts:55-75 | Updates the first row matching `{name, timestamp <= now}` to self with `timestamp = now + timeout`, or inserts that row. Answers whether the stored row's holder is self |
| LockModel.LockModel.ExtendLock | lib/db/models/LockModel.ts:77-98 | The first row of `name` held by self with `timestamp >= now` is prolonged, and it succeeds iff there was one |
| LockModel.LockModel.RemoveLock | lib/db/models/LockModel.ts:100-109 | Removes the first row of `name` held by self with `timestamp >= now` |
| LockModel.LockModel.Delete | lib/db/models/LockModel.ts:111-113 | Removes every row of the name |
| LockModel.LockModel.TruncateCollection | lib/db/models/LockModel.ts:115-118 | Empties the collection |
| LockModel.LockModel.constructor | lib/db/models/LockModel.ts:16-22 | Binds the instance id and the collection |
| LockModel.LockCollection.constructor | lib/db/models/LockModel.ts:24-39 | An empty collection |
| LockModel.Lease | lib/db/models/LockModel.ts:55 | The lease defaults to 25000 ms |
| LockModel.GetLockAlwaysHits | lib/db/models/LockModel.ts:57-74 | As written `getLock` always answers true and writes a fresh lease row for self. Only expired rows of the name are rewritten, and at most one row is added |
| LockModel.SecondHolderAlsoHits | lib/db/models/LockModel.ts:38-68 | With another live holder and no expired row, `getLock` still succeeds and both are live holders |
| LockModel.TwoHoldersExample | lib/db/models/LockModel.ts:38-68 | Concretely: "a" locks at 0 and "b" at 1, and both are told they hold "job" |
| LockModel.BoundaryMatchesBoth | lib/db/models/LockModel.ts:59-105 | At `now == timestamp` a row is both takeable by others and still held for extend and remove |
| LockModel.ExtendLockHitIffHeld | lib/db/models/LockModel.ts:79-97 | `extendLock` succeeds iff self holds a live row of the name. A miss changes nothing and a hit prolongs exactly that row |
| LockModel.RemoveLockTouchesOnlyOwnLiveRow | lib/db/models/LockModel.ts:102-106 | At most one row goes, and only one held by self; every other row keeps its multiplicity |
| LockModel.DeleteRemovesName | lib/db/models/LockModel.ts:111-113 | No row of the name remains, and every other row is kept |
| LockModel.GetLockUniqueKeepsUnique | lib/db/models/LockModel.ts:38-68 | Under a unique index on `name`, `getLock` keeps one row per name |
| LockModel.ExtendLockKeepsUnique | lib/db/models/LockModel.ts:79-97 | `extendLock` keeps one row per name |
| LockModel.RemoveLockKeepsUnique | lib/db/models/LockModel.ts:100-109 | `removeLock` keeps one row per name |
| LockModel.MutualExclusionUnique | lib/db/models/LockModel.ts:38-68 | Under the unique index, once self is granted a lease, any other `getLock` before it expires misses and changes nothing |
| KeyIndexModel.Document | lib/db/models/KeyIndexModel.ts:40-53 | `key` is `hash(key.toString())` iff the key is truthy; `topic` is always `hash(topic)`. `timestampValue` is present iff the message timestamp is truthy, so 0 stores null, and is then its decimal rendering `IntToString` (exact for safe integers). `timestamp` defaults to now. The other fields are copied |
| Strings.NatToString | lib/db/models/KeyIndexModel.ts:50 | `n + ""` for a natural number that is a safe integer (at most 2^53 - 1): digits only, with a leading `0` only for 0 itself |
| Strings.NatToStringValue | lib/db/models/KeyIndexModel.ts:50 | Reading the rendering back digit by digit, left to right, gives the number |
| Strings.NatToStringInjective | lib/api/AccessControll.ts:71 | Distinct numbers have distinct renderings, so one token spells at most one array index |
| Strings.IntToString | lib/db/models/KeyIndexModel.ts:50 | A safe integer's rendering (|n| at most 2^53 - 1): a leading `-` iff it is negative, followed by the rendering of its magnitude |
| Strings.IntToStringValue | lib/db/models/KeyIndexModel.ts:50 | The rendering reads back as the integer (its magnitude after the `-`) |
| KeyIndexModel.KeyIndexModel.Upsert | lib/db/models/KeyIndexModel.ts:40-65 | The document replaces the record of its (key hash, topic hash) pair, or is inserted |
| KeyIndexModel.KeyIndexModel.TruncateCollection | lib/db/models/KeyIndexModel.ts:76-79 | Empties the collection |
| KeyIndexModel.KeyIndexModel.DeleteForTopic | lib/api/routes/topic-config.ts:187-189 | Every record of the topic's hash goes, and every other record is kept |
| KeyIndexModel.KeyIndexModel.constructor | lib/db/models/KeyIndexModel.ts:13-16 | An empty collection with the given hash |
| KeyIndexModel.UpsertShape | lib/db/models/KeyIndexModel.ts:55-64 | The new document sits in its pair's slot and the others keep their places. A record is added iff the pair was absent |
| KeyIndexModel.UpsertKeepsUnique | lib/db/models/KeyIndexModel.ts:55-64 | Sequential upserts keep at most one record per pair |
| KeyIndexModel.LastWriteWins | lib/db/models/KeyIndexModel.ts:55-64 | A lookup of the pair finds the document just written |
| KeyIndexModel.UpsertKeepsOtherPairs | lib/db/models/KeyIndexModel.ts:55-64 | Records of every other pair keep their multiplicity |
| KeyIndexModel.FalsyKeysCollapse | lib/db/models/KeyIndexModel.ts:43-58 | Two falsy-key messages of one topic leave one null-key record, the second |
| StateModel.KnownStateKeysValue | lib/db/models/StateModel.ts:7-12 | `KNOWN_STATE_KEYS` is `[true, "enable_metadata_job"]` |
| StateModel.Values | lib/db/models/StateModel.ts:10-12 | `Object.keys(obj).map(key => obj[key])` lists the values in declaration order |
| StateModel.OnlyKnownStringKey | lib/db/models/StateModel.ts:7-12 | The only string key accepted is `"enable_metadata_job"` |
| StateModel.SetRefusesUnknown | lib/db/models/StateModel.ts:66-70 | `set` throws exactly for keys other than `"enable_metadata_job"` |
| StateModel.SetThenGet | lib/db/models/StateModel.ts:56-79 | After a successful `set`, `get` answers the written value and keys stay unique |
| StateModel.SetKeepsOtherKeys | lib/db/models/StateModel.ts:72-78 | `set` leaves every other key's value unchanged |
| StateModel.DelRemovesKey | lib/db/models/StateModel.ts:81-84 | After `del` the key reads as null, and other keys are unaffected |
| StateModel.SameRowsForKey | lib/db/models/StateModel.ts:56-64 | Two collections that agree position by position on the rows of a key, and add none of it past the end, answer `get` alike |
| StateModel.GetVal | lib/db/models/StateModel.ts:56-64 | Null iff no row has the key, otherwise a stored value of that key |
| StateModel.StateModel.Get | lib/db/models/StateModel.ts:56-64 | Answers the stored value of the key, or null |
| StateModel.StateModel.Set | lib/db/models/StateModel.ts:66-79 | An unknown key fails with the store untouched. A known key is upserted and its value returned. The unique index on `key` is kept |
| StateModel.StateModel.Del | lib/db/models/StateModel.ts:81-84 | Removes the key's row, keeping the unique index on `key` |
| StateModel.StateModel.TruncateCollection | lib/db/models/StateModel.ts:86-89 | Empties the store |
| StateModel.StateModel.constructor | lib/db/models/StateModel.ts:20-36 | An empty store, which satisfies the unique index on `key` |
| HookModel.QueryFor | lib/db/models/HookModel.ts:89-97 | By `_id` iff it is truthy, else by name iff that is truthy, else `{}` |
| HookModel.UpsertTargetsId | lib/db/models/HookModel.ts:90-105 | With an `_id`, the written document has that id and documents with other ids stay in place |
| HookModel.UpsertTargetsName | lib/db/models/HookModel.ts:90-105 | Without `_id` but with a name, the written document has that name and documents with other names stay in place |
| HookModel.UpsertWithoutTargetOverwrites | lib/db/models/HookModel.ts:89-105 | With neither, the first stored hook is overwritten; only an empty collection gets an insert |
| HookModel.DeleteRemovesId | lib/db/models/HookModel.ts:108-112 | No document with the id remains, and every other document is kept |
| HookModel.Stripped | lib/db/models/HookModel.ts:78-85 | `list` answers every hook, in order, without `__v` |
| HookModel.HookModel.Get | lib/db/models/HookModel.ts:70-72 | Null iff no document has the id, otherwise a stored document with it |
| HookModel.HookModel.GetForName | lib/db/models/HookModel.ts:74-76 | Null iff no document has the name, otherwise a stored document with it |
| HookModel.HookModel.List | lib/db/models/HookModel.ts:78-85 | Every hook without `__v` |
| HookModel.HookModel.Upsert | lib/db/models/HookModel.ts:87-106 | The collection and the returned document are those of the targeted upsert |
| HookModel.HookModel.Delete | lib/db/models/HookModel.ts:108-112 | Removes the documents with the id |
| HookModel.HookModel.TruncateCollection | lib/db/models/HookModel.ts:114-117 | Empties the collection |
| HookModel.HookModel.constructor | lib/db/models/HookModel.ts:15-19 | An empty collection |
| AccessControl.Configure | lib/api/AccessControll.ts:10-47 | A missing, falsy or key-less config, or `"*"`, becomes the wildcard. Otherwise it is accepted iff it is an object or array whose every value is `"*"` or an array of strings. An accepted object keeps its keys, an array its indices, and each value is decoded |
| AccessControl.Decode | lib/api/AccessControll.ts:76-82 | A validated value grants every topic iff it is `"*"`, else exactly the strings in its array |
| AccessControl.TopicAccessAllowedForToken | lib/api/AccessControll.ts:59-86 | Wildcard allows all. A missing token or one without an entry is denied, and a `"*"` entry allows all. A list allows exactly its topics |
| AccessControl.WildcardAccessAllowedForToken | lib/api/AccessControll.ts:88-111 | Allowed iff the config is the wildcard or the token maps to `"*"` |
| AccessControl.ProvidedToken | lib/api/AccessControll.ts:49-57 | The token is `headers.authorization`. It is null without headers, or when the headers carry no `authorization` |
| AccessControl.TopicAccessAllowedForRequest | lib/api/AccessControll.ts:49-52 | The token decision on the request's token. Without headers, allowed iff the config is the wildcard |
| AccessControl.WildcardAccessAllowedForRequest | lib/api/AccessControll.ts:54-57 | The same, for the wildcard decision |
| AccessControl.IndexOf | lib/api/AccessControll.ts:65-74 | Finds the array index whose decimal spelling is the token, if any |
| AccessControl.DecisionsFollowObjectConfig | lib/api/AccessControll.ts:59-111 | For an object config, the topic check passes iff the token maps to `"*"` or to a list holding the topic. The wildcard check passes iff it maps to `"*"` |
| AccessControl.DecisionsFollowArrayConfig | lib/api/AccessControll.ts:59-111 | For an array config, the topic check passes iff the token spells an index whose entry is `"*"` or a list holding the topic. The wildcard check passes iff that entry is `"*"` |
| AccessControl.BadValueRejected | lib/api/AccessControll.ts:24-42 | A value that is neither `"*"` nor an array of strings makes the constructor throw |
| Discovery.Discovery.DiscoverTopics | lib/kafka/Discovery.ts:67-117 | A null or empty list changes nothing and answers false, as does an unchanged hash. Otherwise the hash and the sorted filtered list are stored, and created, deleted and discovered are emitted in that order with the two set differences. Answers true |
| Discovery.Discovery.Start | lib/kafka/Discovery.ts:39-54 | Does nothing when discovery is missing or disabled; otherwise marks it active |
| Discovery.Discovery.constructor | lib/kafka/Discovery.ts:21-33 | No hash, no topics, no events |
| Discovery.Missing | lib/kafka/Discovery.ts:93-108 | The push loop collects exactly the topics of one list missing from the other, in order |
| Discovery.DifferenceMembers | lib/kafka/Discovery.ts:93-108 | A difference holds exactly the elements of the first list absent from the second |
| Discovery.WithoutBlacklisted | lib/kafka/Discovery.ts:76-81 | Exactly the topics not on the blacklist remain |
| Discovery.SortedTopics | lib/kafka/Discovery.ts:35-37 | The list left after the in-place sort is sorted, and holds exactly the non-blacklisted topics |
| Discovery.FixedHashPermutationInvariant | lib/kafka/Discovery.ts:35-37 | Permutations hash equally |
| MongoPoller.Poller.OnInterval | lib/db/MongoPoller.ts:64-83 | A no-op without a topic-config model. Otherwise `topic-config-changed` is emitted iff the hash differs from the stored one, which then becomes the stored hash, and `collected` is replaced by the list in store order |
| MongoPoller.Poller.Start | lib/db/MongoPoller.ts:30-51 | One poll completes, then `updated` is emitted |
| MongoPoller.Poller.constructor | lib/db/MongoPoller.ts:19-28 | The initial stored hash is 0 and nothing is collected |
| MongoPoller.ReorderedPollIsQuiet | lib/db/MongoPoller.ts:73-78 | Polling a reordering of the same configs never reports a change |
| MongoPoller.TopicNamesPermutation | lib/db/MongoPoller.ts:73-74 | Permuted configs have permuted topic names |
| MongoPoller.TopicNames | lib/db/MongoPoller.ts:73 | The topic of each config, in order |
| TopicConfigRoutes.GetTopic | lib/api/routes/topic-config.ts:48-66 | 404 iff no config has the topic, else 200 with a config of it |
| TopicConfigRoutes.PostTopic | lib/api/routes/topic-config.ts:68-108 | Guards in order: 403, then 400 without a body or topic, 400 for a `__zamza` topic, 400 when the config exists. A request past every guard always gets 202, with the config appended. Every refusal changes nothing |
| TopicConfigRoutes.PutTopic | lib/api/routes/topic-config.ts:110-135 | 403, then 400 for a `__zamza` topic. Otherwise it upserts without an existence check and answers 202 |
| TopicConfigRoutes.PutTopicMany | lib/api/routes/topic-config.ts:137-172 | 403, then 400 unless `topics` is an array. Otherwise items are upserted in order as `PutMany` says, answering 200 with the list iff all were stored, else 500 |
| TopicConfigRoutes.PutManyStopsAtFirstBad | lib/api/routes/topic-config.ts:155-164 | The first item that cannot be stored aborts: earlier items are upserted, it and later ones are not |
| TopicConfigRoutes.PutManySucceedsIffAllStorable | lib/api/routes/topic-config.ts:155-166 | The bulk upsert completes iff every item has a non-internal topic |
| TopicConfigRoutes.UpsertConfigFindsNew | lib/db/models/TopicConfigModel.ts:32-51 | After an upsert the topic's config is the new one, and configs of other topics are kept |
| TopicConfigRoutes.DeleteTopic | lib/api/routes/topic-config.ts:174-198 | 403, else 204 with the config and the metadata removed. The key index is purged only when `purge` is truthy |
| TopicConfigRoutes.DeleteTopicForgets | lib/api/routes/topic-config.ts:184-186 | No config or metadata of the topic remains, and configs of other topics are kept |
| TopicConfigRoutes.TopicConfigStore.constructor | lib/db/models/TopicConfigModel.ts:9-12 | An empty collection |
| TopicConfigRoutes.TopicMetadataStore.constructor | lib/db/models/TopicMetadata.ts:14-18 | An empty collection |
| HookRoutes.GetHook | lib/api/routes/hook.ts:21-39 | 404 iff no hook has the id, else 200 with it |
| HookRoutes.GetHookForName | lib/api/routes/hook.ts:41-59 | 404 iff no hook has the name, else 200 with it |
| HookRoutes.PostHook | lib/api/routes/hook.ts:61-101 | Guards in order: 403, then 400 unless name, subscriptions and endpoint are truthy, then 403 for disallowed subscriptions (before any store access), then 400 when the name exists. A request past every guard always gets 200: `_id` is dropped and the hook is inserted under a fresh id at version 0 |
| HookRoutes.PutHook | lib/api/routes/hook.ts:103-134 | The same guards without the name check, then the targeted upsert and 200 |
| HookRoutes.DeleteHook | lib/api/routes/hook.ts:136-153 | 403, else 204 with the id's documents removed |
| HookRoutes.PutByNameRewrites | lib/api/routes/hook.ts:127-128 | A PUT without `_id` naming an existing hook rewrites it instead of adding one |
| ManageRoutes.PostKeyIndex | lib/api/routes/manage.ts:25-61 | 400 without a body or topic, or with an undefined value, then 403 on denied topic access. A request past both guards is always handed over. The message has partition default 0, key default null and timestamp default now. It is handed over with `fromStream` false; 202 iff the handler answers true, else 500 |
| ManageRoutes.DeleteKeyIndex | lib/api/routes/manage.ts:63-92 | 403 unless the token-less check passes. A truthy `produceTombstone` without a `compact` config answers 400 with no effect. Every other request gets 204, after an optional tombstone and the key-index delete |
| ManageRoutes.DeleteOnlyUnderWildcard | lib/api/routes/manage.ts:70 | Since the topic is passed in place of the request, only the wildcard config lets a delete through |
| ManageRoutes.FalseStringRequestsTombstone | lib/api/routes/manage.ts:65-85 | `produceTombstone=false` is a non-empty string, so it takes the tombstone path |
| DocStore.FirstMatch | lib/db/models/LockModel.ts:57-68 | The first row in natural order that the filter matches, or none |
| DocStore.Upsert | lib/db/models/KeyIndexModel.ts:55-64 | The first match is rewritten, else the insert is appended, and the stored document is returned |
| DocStore.UpdateOne | lib/db/models/LockModel.ts:79-97 | The first match is rewritten, else nothing changes and null is returned |
| DocStore.DeleteOne | lib/db/models/StateModel.ts:81-84 | Drops the first match, if any |
| DocStore.DeleteMany | lib/db/models/HookModel.ts:108-112 | Keeps exactly the rows the filter does not match, in order |
| DocStore.DeleteManyAppend | lib/db/models/HookModel.ts:108-112 | Deleting from a concatenation deletes from each part and keeps the parts in order |
| DocStore.DeleteManySingleton | lib/db/models/HookModel.ts:108-112 | A single row is kept iff the filter does not match it; with the previous lemma, this fixes the kept rows and their order |
| DocStore.FindOne | lib/db/models/StateModel.ts:57-62 | The first matching row, or null |

## Left out

- I/O and timers are not modelled: broker consumers and producers, HTTP servers, the mirror consumer's network work, and the timers of the discovery scan and the poller interval. Each method models one step.
- Metrics counters, the debug log, and `JSON.stringify` of the replay payload (the model records the payload value) are not modelled.
- murmurhash, uuid, `Date.now()` and the key's `toString()` are parameters, not implementations.
- Store failures are not modelled except in `startReplay`, where a rejected upsert leaves the target and group set without a mirror. Every route's 500 answer for a thrown store error is omitted.
- `lib/MessageHandler.ts` is a stub that always returns true, and `HookDealer.handleSubscription` is empty, so the handler's answer and the topic-config lookup used by the key-index delete are parameters.
- The bodies of the access predicates `hookAccessAllowedForRequest`, `subscriptionsAllowedForRequest`, `replayAccessAllowedForRequest` and `topicConfigAccessAllowedForRequest` are not defined in `lib/api/AccessControll.ts`, so they are boolean parameters.
- HookDealer.HookDealer.ProcessHookUpdate: a topic named `__proto__` is not modelled. Its lookup finds `Object.prototype`, and assigning to it replaces the index's prototype instead of adding a list. The other inherited names are modelled.
- HookDealer.HookDealer.HandleMessage: a `__proto__` topic is not modelled either, for the same reason.
- HookDealer.HookDealer.ProcessHookUpdateIntended: the corrected index is taken to be a dictionary without inherited members, as `Object.create(null)` or a `Map` gives. The literal fix on a `{}` would still fail at the push for a topic such as `constructor`.
- AccessControl.Configure: prototype keys such as `toString` and an array's `length` property do not count as token entries in the model. JSON values are integers (no floating point).
- The listing routes (`GET /topic`, `GET /hook`, `GET /replays`) and the `/replay/lag` and `/replay/analytics` routes only forward to models or to consumer statistics, so they are not modelled as routes.
- LockModel.LockModel.ExtendLock: the model applies the intended `timestamp += extendFor`. The update document nests `$inc` under the `timestamp` field, which the store would reject or store literally; that behaviour is not captured.
- LockModel.LockModel.GetLock: one `now` serves both clock reads (the filter's `$lte` and the new lease's expiry), which happen a few instants apart in the source.
- TopicConfigRoutes.PutTopic: for a body without `topic`, the source calls `upsert(undefined, …)`. The effect of an undefined filter value depends on how the driver serialises it, so the model answers 500 with the collection unchanged.
- TopicConfigRoutes.PutTopicMany: an item without `topic` is treated the same way, as an aborting item. All items share one `now`, while the source reads the clock once per upsert.
- HookModel.Merge: an update overwrites every field the request hook carries and keeps `_id` and `__v`. `disabled` is a plain boolean, so it is always written.
- HookModel.HookModel.Get, HookModel.HookModel.Delete, HookRoutes.GetHook, HookRoutes.PutHook, HookRoutes.DeleteHook: hook ids are plain strings and the ObjectId conversion is the identity. In the source, `mongoose.Types.ObjectId(id)` throws on a malformed id, so those routes answer 500 where the model answers 404, 200 or 204.
- KeyIndexModel.Document: message and body timestamps are unbounded integers, while JavaScript numbers are doubles. `n + ""` agrees with `IntToString` only for safe integers (|n| at most 2^53 - 1); above that the source rounds, from 1e21 on it uses exponent notation, and fractional or NaN timestamps are not represented. `timestampValue` is the rendered string, where the source stores a `Buffer` of its ASCII bytes.
- Request bodies are typed summaries. A truthy but non-string `topic`, which would make `startsWith` throw, is not representable.
- `KeyIndexModel.delete` and `producer.produceTombstone` are recorded as effects of the key-index delete, because their code is not part of this model.
- `lib/db/MongoWrapper.ts`, `lib/Zamza.ts`, the CLI in `bin/` and the other route files are bootstrap or forwarding code and are not part of this model.

## Findings

| source | as written | input that shows it | evidently intended | confidence | as-written member | corrected member |
|---|---|---|---|---|---|---|
| lib/HookDealer.ts:70-72 | The guard resets an existing topic list to `[]` and skips a missing one, so the push that follows fails on the missing list and the update throws before the new map is swapped in | one enabled hook with one enabled subscription to topic `t` (any name that a `{}` does not inherit) | create the list when it is missing, then append the view | not executed | HookDealer.HookDealer.ProcessHookUpdate | HookDealer.HookDealer.ProcessHookUpdateIntended |
| lib/db/models/LockModel.ts:38-68 | The indices on `name` are not unique, so a `getLock` that finds no expired row inserts a second row for the name and answers true while another instance holds a live lease | instance `a` calls `getLock("job")` at 0, then instance `b` at 1 | at most one row per name, so the second call misses until the lease expires | not executed | LockModel.TwoHoldersExample | LockModel.MutualExclusionUnique |
| lib/api/routes/replay.ts:97-160 | `/replay/:topic` is registered before `/replay/flushall` and `/replay/flushone`, so first-match routing sends both flush requests to the stop handler with topic `flushall` or `flushone` | `DELETE /replay/flushall` | register the literal flush routes first | not executed | ReplayRoutes.FlushPathsReachTopicHandler | ReplayRoutes.IntendedOrderReachesFlush |
