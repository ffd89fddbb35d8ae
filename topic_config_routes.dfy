/** The `/config/topic` HTTP routes: guard chains in front of the
    topic-configuration collection, the sequential bulk upsert, and the
    delete that optionally purges the key index. The access decision
    `topicConfigAccessAllowedForRequest` is a parameter. */
module TopicConfigRoutes {
  import opened Wrappers
  import opened Entities
  import Strings
  import DocStore
  import KeyIndexModel

  const ZAMZA_TOPIC_PREFIX: string := "__zamza"

  /** The fields read from a topic-configuration body or list item. */
  datatype TopicBody = TopicBody(topic: Option<string>, cleanupPolicy: Option<string>, retentionMs: Option<int>)

  /** The `topics` field of a bulk body. */
  datatype TopicsField = Missing | NotAnArray | Items(items: seq<Option<TopicBody>>)

  /** `topic && topic.startsWith("__zamza")`. */
  predicate Internal(topic: string)
  {
    Strings.StartsWith(topic, ZAMZA_TOPIC_PREFIX)
  }

  function TopicIs(topic: string): TopicConfig -> bool
  {
    (c: TopicConfig) => c.topic == topic
  }

  /** The document `upsert(topic, cleanupPolicy, retentionMs)` writes.
      `TopicConfigModel.upsert` stores its third argument under `segmentMs`, so the
      `retentionMs` field of a stored config stands for that `segmentMs`. */
  function Configured(topic: string, b: TopicBody, now: int): TopicConfig
  {
    TopicConfig(topic, b.cleanupPolicy, b.retentionMs, now)
  }

  /** `upsert`: the config of that topic is replaced, or one is inserted. */
  function UpsertConfig(rows: seq<TopicConfig>, topic: string, b: TopicBody, now: int): seq<TopicConfig>
  {
    var d := Configured(topic, b, now);
    DocStore.Upsert(rows, TopicIs(topic), (_: TopicConfig) => d, d).0
  }

  /** Upserting leaves exactly one config (the new one) first for its topic
      and keeps every config of another topic. */
  lemma UpsertConfigFindsNew(rows: seq<TopicConfig>, topic: string, b: TopicBody, now: int)
    ensures DocStore.FindOne(UpsertConfig(rows, topic, b, now), TopicIs(topic)) == Some(Configured(topic, b, now))
    ensures forall c :: c in rows && c.topic != topic ==> c in UpsertConfig(rows, topic, b, now)
  {
    var after := UpsertConfig(rows, topic, b, now);
    var m := DocStore.FirstMatch(rows, TopicIs(topic));
    if m.Some? {
      assert forall k :: 0 <= k < m.value ==> after[k] == rows[k];
      DocStore.FirstMatchAt(after, TopicIs(topic), m.value);
      assert forall k :: 0 <= k < |rows| && rows[k].topic != topic ==> after[k] == rows[k];
    } else {
      assert forall k :: 0 <= k < |rows| ==> after[k] == rows[k];
      DocStore.FirstMatchAt(after, TopicIs(topic), |rows|);
    }
  }

  /** An item the bulk upsert stores: present, with a topic, not internal. */
  predicate Storable(item: Option<TopicBody>)
  {
    item.Some? && item.value.topic.Some? && !Internal(item.value.topic.value)
  }

  /** The bulk upsert, one item at a time in list order: the collection
      afterwards, and whether every item was stored. */
  function PutMany(rows: seq<TopicConfig>, items: seq<Option<TopicBody>>, now: int): (seq<TopicConfig>, bool)
    decreases |items|
  {
    if items == [] then (rows, true)
    else if !Storable(items[0]) then (rows, false)
    else PutMany(UpsertConfig(rows, items[0].value.topic.value, items[0].value, now), items[1..], now)
  }

  /** The bulk upsert stops at the first item it cannot store: the items
      before it are upserted, it and every later one are not. */
  lemma {:induction false} PutManyStopsAtFirstBad(rows: seq<TopicConfig>, items: seq<Option<TopicBody>>, now: int, k: nat)
    requires k < |items| && !Storable(items[k])
    requires forall j :: 0 <= j < k ==> Storable(items[j])
    ensures PutMany(rows, items, now) == (PutMany(rows, items[..k], now).0, false)
    decreases k
  {
    if k > 0 {
      var next := UpsertConfig(rows, items[0].value.topic.value, items[0].value, now);
      PutManyStopsAtFirstBad(next, items[1..], now, k - 1);
      assert items[..k][1..] == items[1..][..k - 1];
    }
  }

  /** The bulk upsert succeeds exactly when every item is storable. */
  lemma {:induction false} PutManySucceedsIffAllStorable(rows: seq<TopicConfig>, items: seq<Option<TopicBody>>, now: int)
    ensures PutMany(rows, items, now).1 <==> forall j :: 0 <= j < |items| ==> Storable(items[j])
    decreases |items|
  {
    if items != [] && Storable(items[0]) {
      PutManySucceedsIffAllStorable(UpsertConfig(rows, items[0].value.topic.value, items[0].value, now), items[1..], now);
      assert forall j :: 1 <= j < |items| ==> items[j] == items[1..][j - 1];
    }
  }

  /** The topic-configuration collection. */
  class TopicConfigStore {
    var rows: seq<TopicConfig>

    constructor()
      ensures rows == []
    {
      rows := [];
    }
  }

  /** The topic-metadata collection; each document is identified by its topic. */
  class TopicMetadataStore {
    var topics: seq<string>

    constructor()
      ensures topics == []
    {
      topics := [];
    }
  }

  function NameIs(topic: string): string -> bool
  {
    (t: string) => t == topic
  }

  /** GET `/topic/:topic`: 200 with the config, or 404. */
  method GetTopic(configs: TopicConfigStore, topic: string) returns (status: int, config: Option<TopicConfig>)
    ensures status == 404 <==> forall k :: 0 <= k < |configs.rows| ==> configs.rows[k].topic != topic
    ensures status == 404 ==> config.None?
    ensures status != 404 ==> status == 200 && config.Some? && config.value in configs.rows && config.value.topic == topic
  {
    config := DocStore.FindOne(configs.rows, TopicIs(topic));
    if config.Some? {
      return 200, config;
    }
    return 404, None;
  }

  /** POST `/topic`: 403, 400 without a body or a truthy topic, 400 for an
      internal topic, 400 when a config exists, otherwise the config is
      inserted and 202. */
  method PostTopic(access: bool, body: Option<TopicBody>, configs: TopicConfigStore, now: int) returns (status: int)
    modifies configs
    ensures !access ==> status == 403
    ensures access && (body.None? || !Truthy(body.value.topic)) ==> status == 400
    ensures access && body.Some? && Truthy(body.value.topic) && Internal(body.value.topic.value) ==> status == 400
    ensures access && body.Some? && Truthy(body.value.topic)
            && (exists k :: 0 <= k < |old(configs.rows)| && old(configs.rows)[k].topic == body.value.topic.value) ==>
            status == 400
    ensures status != 202 ==> configs.rows == old(configs.rows)
    ensures status == 202 ==>
      && access && body.Some? && Truthy(body.value.topic) && !Internal(body.value.topic.value)
      && (forall k :: 0 <= k < |old(configs.rows)| ==> old(configs.rows)[k].topic != body.value.topic.value)
      && configs.rows == old(configs.rows) + [Configured(body.value.topic.value, body.value, now)]
    ensures access && body.Some? && Truthy(body.value.topic) && !Internal(body.value.topic.value)
            && (forall k :: 0 <= k < |old(configs.rows)| ==> old(configs.rows)[k].topic != body.value.topic.value) ==>
            status == 202
  {
    if !access {
      return 403;
    }
    if body.None? || !Truthy(body.value.topic) {
      return 400;
    }
    var topic := body.value.topic.value;
    if Internal(topic) {
      return 400;
    }
    var existing := DocStore.FindOne(configs.rows, TopicIs(topic));
    if existing.Some? {
      return 400;
    }
    configs.rows := UpsertConfig(configs.rows, topic, body.value, now);
    return 202;
  }

  /** PUT `/topic`: 403, 500 for a missing body (destructuring throws), 400
      for an internal topic, otherwise upsert, existing or not, and 202. */
  method PutTopic(access: bool, body: Option<TopicBody>, configs: TopicConfigStore, now: int) returns (status: int)
    modifies configs
    ensures !access ==> status == 403
    ensures access && (body.None? || body.value.topic.None?) ==> status == 500
    ensures access && body.Some? && body.value.topic.Some? && Internal(body.value.topic.value) ==> status == 400
    ensures status != 202 ==> configs.rows == old(configs.rows)
    ensures access && body.Some? && body.value.topic.Some? && !Internal(body.value.topic.value) ==>
      status == 202 && configs.rows == UpsertConfig(old(configs.rows), body.value.topic.value, body.value, now)
  {
    if !access {
      return 403;
    }
    if body.None? || body.value.topic.None? {
      return 500;
    }
    var topic := body.value.topic.value;
    if Internal(topic) {
      return 400;
    }
    configs.rows := UpsertConfig(configs.rows, topic, body.value, now);
    return 202;
  }

  /** PUT `/topic/many`: 403, 400 unless `topics` is an array, then the
      items are upserted in order; 200 with the listed collection when all
      were stored, 500 at the first item that cannot be. */
  method PutTopicMany(access: bool, body: Option<TopicsField>, configs: TopicConfigStore, now: int)
    returns (status: int, listed: seq<TopicConfig>)
    modifies configs
    ensures !access ==> status == 403 && configs.rows == old(configs.rows)
    ensures access && (body.None? || !body.value.Items?) ==> status == 400 && configs.rows == old(configs.rows)
    ensures access && body.Some? && body.value.Items? ==>
      && configs.rows == PutMany(old(configs.rows), body.value.items, now).0
      && (status == 200 <==> PutMany(old(configs.rows), body.value.items, now).1)
      && (status == 200 || status == 500)
      && (status == 200 ==> listed == configs.rows)
  {
    listed := [];
    if !access {
      return 403, [];
    }
    if body.None? || !body.value.Items? {
      return 400, [];
    }
    var items := body.value.items;
    var i := 0;
    while i < |items|
      invariant 0 <= i <= |items|
      invariant forall j :: 0 <= j < i ==> Storable(items[j])
      invariant PutMany(configs.rows, items[i..], now) == PutMany(old(configs.rows), items, now)
    {
      assert items[i..][1..] == items[i + 1..];
      if !Storable(items[i]) {
        return 500, [];
      }
      configs.rows := UpsertConfig(configs.rows, items[i].value.topic.value, items[i].value, now);
      i := i + 1;
    }
    return 200, configs.rows;
  }

  /** DELETE `/topic/:topic`: 403, otherwise the topic's configs and
      metadata are removed, the key index is purged only when `purge` is
      given, and 204. */
  method DeleteTopic(access: bool, topic: string, purge: Option<string>, configs: TopicConfigStore,
                     metadata: TopicMetadataStore, keyIndex: KeyIndexModel.KeyIndexModel)
    returns (status: int)
    modifies configs, metadata, keyIndex
    ensures !access ==>
      && status == 403 && configs.rows == old(configs.rows) && metadata.topics == old(metadata.topics)
      && keyIndex.rows == old(keyIndex.rows)
    ensures access ==>
      && status == 204
      && configs.rows == DocStore.DeleteMany(old(configs.rows), TopicIs(topic))
      && metadata.topics == DocStore.DeleteMany(old(metadata.topics), NameIs(topic))
      && keyIndex.rows == (if Truthy(purge)
                           then DocStore.DeleteMany(old(keyIndex.rows), KeyIndexModel.TopicHashIs(keyIndex.hash(topic)))
                           else old(keyIndex.rows))
  {
    if !access {
      return 403;
    }
    configs.rows := DocStore.DeleteMany(configs.rows, TopicIs(topic));
    metadata.topics := DocStore.DeleteMany(metadata.topics, NameIs(topic));
    if Truthy(purge) {
      keyIndex.DeleteForTopic(topic);
    }
    return 204;
  }

  /** After a delete the topic has no config and no metadata, and every
      other topic keeps its configs. */
  lemma DeleteTopicForgets(rows: seq<TopicConfig>, topics: seq<string>, topic: string)
    ensures forall c :: c in DocStore.DeleteMany(rows, TopicIs(topic)) ==> c.topic != topic
    ensures topic !in DocStore.DeleteMany(topics, NameIs(topic))
    ensures forall c :: c in rows && c.topic != topic ==> c in DocStore.DeleteMany(rows, TopicIs(topic))
  {
  }
}
