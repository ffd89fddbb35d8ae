/** Replay coordination: at most one mirror consumer per instance copies a
    topic onto the internal replay topic, and a persisted replay store
    records which instance replays which topic. */
module ReplayHandler {
  import opened Wrappers
  import opened Entities
  import DocStore

  /** The internal topic every mirrored message is produced to. */
  const REPLAY_TOPIC: string := "__zamza_replay_topic"

  const MIRROR_GROUP_PREFIX: string := "zamza-internal-mirror-"

  /** A persisted replay record. */
  datatype Replay = Replay(instanceId: string, topic: string, consumerGroup: string, timestamp: int)

  /** What the running mirror consumer was started with. */
  datatype Mirror = Mirror(topic: string, consumerGroup: string)

  /** The produced payload `{message}`. */
  datatype ReplayMessagePayload = ReplayMessagePayload(message: Message)

  /** One call of `produceMessage(topic, partition, key, value)`. */
  datatype Produced = Produced(topic: string, partition: Option<int>, key: Option<string>, value: ReplayMessagePayload)

  /** The answer of `getCurrentReplay`. */
  datatype CurrentReplay = CurrentReplay(instanceId: string, replay: Option<Replay>)

  function TopicIs(topic: string): Replay -> bool
  {
    (r: Replay) => r.topic == topic
  }

  function InstanceIs(id: string): Replay -> bool
  {
    (r: Replay) => r.instanceId == id
  }

  /** `createConsumerGroupId`, given the uuid it draws. */
  function ConsumerGroupId(uuid: string): (r: string)
    ensures |r| == |MIRROR_GROUP_PREFIX| + |uuid| && r[..|MIRROR_GROUP_PREFIX|] == MIRROR_GROUP_PREFIX
            && r[|MIRROR_GROUP_PREFIX|..] == uuid
  {
    MIRROR_GROUP_PREFIX + uuid
  }

  /** `upsert(replay)`: the record of the replay's topic is replaced, or added. */
  function UpsertRows(rows: seq<Replay>, replay: Replay): seq<Replay>
  {
    DocStore.Upsert(rows, TopicIs(replay.topic), (_: Replay) => replay, replay).0
  }

  /** `delete(topic)`: every record of the topic goes. */
  function DeleteTopicRows(rows: seq<Replay>, topic: string): seq<Replay>
  {
    DocStore.DeleteMany(rows, TopicIs(topic))
  }

  /** `deleteForInstanceId(id)`: every record of the instance goes. */
  function DeleteInstanceRows(rows: seq<Replay>, id: string): seq<Replay>
  {
    DocStore.DeleteMany(rows, InstanceIs(id))
  }

  /** The store after `flushone` given the target topic it saw. */
  function FlushOneRows(rows: seq<Replay>, target: Option<string>, id: string): seq<Replay>
  {
    var afterTopic := if Truthy(target) then DeleteTopicRows(rows, target.value) else rows;
    DeleteInstanceRows(afterTopic, id)
  }

  /** After `flushone` no record of this instance, nor of its target topic,
      remains, and every other record is kept. */
  lemma FlushOneClears(rows: seq<Replay>, target: Option<string>, id: string)
    ensures forall r :: r in FlushOneRows(rows, target, id) ==> r.instanceId != id
    ensures Truthy(target) ==> forall r :: r in FlushOneRows(rows, target, id) ==> r.topic != target.value
    ensures forall r :: r in rows && r.instanceId != id && (Truthy(target) ==> r.topic != target.value) ==>
      r in FlushOneRows(rows, target, id)
  {
  }

  /** A second `flushone` (which sees no target any more) changes nothing. */
  lemma FlushOneIdempotent(rows: seq<Replay>, target: Option<string>, id: string)
    ensures FlushOneRows(FlushOneRows(rows, target, id), None, id) == FlushOneRows(rows, target, id)
  {
    var afterTopic := if Truthy(target) then DeleteTopicRows(rows, target.value) else rows;
    DocStore.DeleteManyIdempotent(afterTopic, InstanceIs(id));
  }

  /** The store after `getCurrentReplay`'s clean-up: a record of this
      instance without a running mirror loses its topic's records; a running
      mirror without a record is persisted again, at time `now`. */
  function ReconcileRows(rows: seq<Replay>, id: string, mirror: Option<Mirror>, now: int): seq<Replay>
  {
    var own := DocStore.FindOne(rows, InstanceIs(id));
    if own.Some? && mirror.None? then DeleteTopicRows(rows, own.value.topic)
    else if own.None? && mirror.Some? then UpsertRows(rows, Replay(id, mirror.value.topic, mirror.value.consumerGroup, now))
    else rows
  }

  /** With a running mirror, the clean-up always leaves a record of this
      instance for the lookup to answer. */
  lemma RunningReconcileKeepsOwnRecord(rows: seq<Replay>, id: string, mirror: Mirror, now: int)
    ensures DocStore.FindOne(ReconcileRows(rows, id, Some(mirror), now), InstanceIs(id)).Some?
  {
    var replay := Replay(id, mirror.topic, mirror.consumerGroup, now);
    if DocStore.FindOne(rows, InstanceIs(id)).None? {
      StartedReplayIsPersisted(rows, replay);
      assert InstanceIs(id)(replay);
    }
  }

  /** The persisted replay store. */
  class ReplayStore {
    var rows: seq<Replay>

    constructor()
      ensures rows == []
    {
      rows := [];
    }
  }

  class ReplayHandler {
    const instanceId: string
    const store: ReplayStore
    /** `mirrorConsumer`: `None` for null. */
    var mirror: Option<Mirror>
    var currentTargetTopic: Option<string>
    var currentConsumerGroup: Option<string>
    /** Messages handed to the replay producer, oldest first. */
    var produced: seq<Produced>

    /** A running mirror goes with the target topic and group it was started for. */
    predicate Valid()
      reads this
    {
      mirror.Some? ==> currentTargetTopic == Some(mirror.value.topic) && currentConsumerGroup == Some(mirror.value.consumerGroup)
    }

    /** `instanceId` is a fresh uuid in the source; here it is given. */
    constructor(instanceId: string, store: ReplayStore)
      ensures Valid()
      ensures this.instanceId == instanceId && this.store == store
      ensures mirror.None? && currentTargetTopic.None? && currentConsumerGroup.None? && produced == []
    {
      this.instanceId := instanceId;
      this.store := store;
      mirror := None;
      currentTargetTopic := None;
      currentConsumerGroup := None;
      produced := [];
    }

    /** `messageHandle`: the message goes to the replay topic wrapped as
        `{message}`, with no partition and no key. */
    method MessageHandle(message: Message)
      modifies this
      ensures produced == old(produced) + [Produced(REPLAY_TOPIC, None, None, ReplayMessagePayload(message))]
      ensures mirror == old(mirror) && currentTargetTopic == old(currentTargetTopic)
      ensures currentConsumerGroup == old(currentConsumerGroup)
    {
      var replayMessage := ReplayMessagePayload(message);
      produced := produced + [Produced(REPLAY_TOPIC, None, None, replayMessage)];
    }

    method IsCurrentlyRunning() returns (r: bool)
      ensures r <==> mirror.Some?
    {
      if mirror.Some? {
        return true;
      }
      return false;
    }

    method DealsWithTopic(topic: string) returns (r: bool)
      ensures r <==> currentTargetTopic == Some(topic)
    {
      if currentTargetTopic == Some(topic) {
        return true;
      }
      return false;
    }

    /** `isBeingReplayedByAnyInstance`: whether any record exists for the topic. */
    method IsBeingReplayedByAnyInstance(topic: string) returns (r: bool)
      ensures r <==> exists k :: 0 <= k < |store.rows| && store.rows[k].topic == topic
    {
      var replay := DocStore.FindOne(store.rows, TopicIs(topic));
      r := replay.Some?;
    }

    method ListReplays() returns (r: seq<Replay>)
      ensures r == store.rows
    {
      r := store.rows;
    }

    /** `getCurrentReplay`, reconciling the store with the local state
        first (`ReconcileRows`), then answering this instance's record. */
    method GetCurrentReplay(now: int) returns (r: CurrentReplay)
      requires Valid()
      modifies store
      ensures r.instanceId == instanceId
      ensures store.rows == ReconcileRows(old(store.rows), instanceId, mirror, now)
      ensures r.replay == DocStore.FindOne(store.rows, InstanceIs(instanceId))
      ensures mirror.Some? ==> r.replay.Some? && r.replay.value.instanceId == instanceId
    {
      var replayForInstanceId := DocStore.FindOne(store.rows, InstanceIs(instanceId));
      var running := IsCurrentlyRunning();
      if replayForInstanceId.Some? && !running {
        store.rows := DocStore.DeleteMany(store.rows, TopicIs(replayForInstanceId.value.topic));
      }
      if replayForInstanceId.None? && running {
        var replay := Replay(instanceId, currentTargetTopic.value, currentConsumerGroup.value, now);
        RunningReconcileKeepsOwnRecord(store.rows, instanceId, mirror.value, now);
        store.rows := DocStore.Upsert(store.rows, TopicIs(replay.topic), (_: Replay) => replay, replay).0;
      }
      r := CurrentReplay(instanceId, DocStore.FindOne(store.rows, InstanceIs(instanceId)));
    }

    /** `flushone`: drops the target topic's and this instance's records,
        closes the mirror and clears the local state; always true. */
    method FlushOne() returns (r: bool)
      modifies this, store
      ensures r && Valid()
      ensures store.rows == FlushOneRows(old(store.rows), old(currentTargetTopic), instanceId)
      ensures mirror.None? && currentTargetTopic.None? && currentConsumerGroup.None?
      ensures produced == old(produced)
    {
      if Truthy(currentTargetTopic) {
        store.rows := DocStore.DeleteMany(store.rows, TopicIs(currentTargetTopic.value));
      }
      store.rows := DocStore.DeleteMany(store.rows, InstanceIs(instanceId));
      mirror := None;
      currentConsumerGroup := None;
      currentTargetTopic := None;
      return true;
    }

    /** `flushall`: a `flushone`, then the whole store is truncated. */
    method FlushAll() returns (r: bool)
      modifies this, store
      ensures r && Valid()
      ensures store.rows == []
      ensures mirror.None? && currentTargetTopic.None? && currentConsumerGroup.None?
      ensures produced == old(produced)
    {
      var _ := FlushOne();
      DocStore.DeleteAllEmpties(store.rows);
      store.rows := DocStore.DeleteMany(store.rows, DocStore.All);
      return true;
    }

    /** `startReplay(topic, consumerGroup)`. `uuid` is the id a missing group
        is built from, `now` the clock, and `storeFails` whether the upsert
        rejects, which leaves the target and group set without a mirror. */
    method StartReplay(topic: string, consumerGroup: Option<string>, uuid: string, now: int, storeFails: bool)
      returns (r: Result<Replay>)
      requires Valid()
      modifies this, store
      ensures Valid() && produced == old(produced)
      ensures old(mirror).Some? ==> r.Err? && unchanged(this) && unchanged(store)
      ensures old(mirror).None? ==>
        var group := if Truthy(consumerGroup) then consumerGroup.value else ConsumerGroupId(uuid);
        var replay := Replay(instanceId, topic, group, now);
        && currentTargetTopic == Some(topic)
        && currentConsumerGroup == Some(group)
        && (storeFails ==> r.Err? && mirror.None? && unchanged(store))
        && (!storeFails ==> r == Ok(replay) && mirror == Some(Mirror(topic, group))
                            && store.rows == UpsertRows(old(store.rows), replay))
    {
      if mirror.Some? {
        return Err("Consumer is already running on this instance.");
      }
      var group := if Truthy(consumerGroup) then consumerGroup.value else ConsumerGroupId(uuid);
      var replay := Replay(instanceId, topic, group, now);
      currentConsumerGroup := Some(replay.consumerGroup);
      currentTargetTopic := Some(topic);
      if storeFails {
        return Err("replay store upsert failed");
      }
      store.rows := DocStore.Upsert(store.rows, TopicIs(replay.topic), (_: Replay) => replay, replay).0;
      mirror := Some(Mirror(replay.topic, replay.consumerGroup));
      return Ok(replay);
    }

    /** `stopReplay`: throws without a mirror; otherwise closes it, drops the
        target topic's records and clears the local state. */
    method StopReplay() returns (r: Result<bool>)
      requires Valid()
      modifies this, store
      ensures Valid() && produced == old(produced)
      ensures old(mirror).None? ==> r.Err? && unchanged(this) && unchanged(store)
      ensures old(mirror).Some? ==>
        && r == Ok(true)
        && store.rows == DeleteTopicRows(old(store.rows), old(mirror).value.topic)
        && mirror.None? && currentTargetTopic.None? && currentConsumerGroup.None?
    {
      if mirror.None? {
        return Err("No consumer running on this instance.");
      }
      store.rows := DocStore.DeleteMany(store.rows, TopicIs(currentTargetTopic.value));
      mirror := None;
      currentTargetTopic := None;
      currentConsumerGroup := None;
      return Ok(true);
    }
  }

  /** Once started, the topic is reported as replayed by some instance and
      the record names this instance and the group in use. */
  lemma StartedReplayIsPersisted(rows: seq<Replay>, replay: Replay)
    ensures replay in UpsertRows(rows, replay)
    ensures DocStore.FindOne(UpsertRows(rows, replay), TopicIs(replay.topic)) == Some(replay)
  {
    var m := DocStore.FirstMatch(rows, TopicIs(replay.topic));
    var after := UpsertRows(rows, replay);
    if m.Some? {
      assert after[m.value] == replay;
      assert forall k :: 0 <= k < m.value ==> after[k] == rows[k];
      DocStore.FirstMatchAt(after, TopicIs(replay.topic), m.value);
    } else {
      assert after[|rows|] == replay;
      DocStore.FirstMatchAt(after, TopicIs(replay.topic), |rows|);
    }
  }

  /** Without a running mirror, and with at most one record of this
      instance, the clean-up leaves no record of it. */
  lemma IdleReconcileForgetsInstance(rows: seq<Replay>, id: string, now: int)
    requires forall i, j :: 0 <= i < j < |rows| && rows[i].instanceId == id ==> rows[j].instanceId != id
    ensures DocStore.FindOne(ReconcileRows(rows, id, None, now), InstanceIs(id)).None?
  {
    var own := DocStore.FindOne(rows, InstanceIs(id));
    if own.Some? {
      var after := DeleteTopicRows(rows, own.value.topic);
      assert forall x :: x in after ==> x.instanceId != id;
    }
  }
}
