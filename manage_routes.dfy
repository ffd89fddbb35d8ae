/** The `/manage/key-index` HTTP routes: a message built from a request
    body and handed to the message handler, and the delete that may first
    produce a tombstone. The handler, the topic-config lookup, the
    producer and the key-index delete are parameters or recorded effects. */
module ManageRoutes {
  import opened Wrappers
  import opened Entities
  import AC = AccessControl

  /** `value` of the body: `undefined`, or a value that may be `null`. */
  datatype KeyIndexBody = KeyIndexBody(
    topic: Option<string>,
    partition: Option<int>,
    offset: Option<int>,
    key: Option<Payload>,
    value: Option<Option<Payload>>,
    timestamp: Option<int>)

  /** The message the handler receives, with `fromStream` as passed. */
  datatype Handed = Handed(message: Message, fromStream: bool)

  /** POST `/key-index`: 400 without a body, without a truthy topic or with
      an undefined value; 403 when topic access is denied; otherwise the
      built message goes to `handle` and the answer is 202 iff it returns
      true, else 500. `now` is the clock reading for a missing timestamp. */
  function PostKeyIndex(cfg: AC.AccessConfig, req: AC.Request, body: Option<KeyIndexBody>, now: int,
                        handle: Handed -> bool): (r: (int, Option<Handed>))
    ensures (body.None? || !Truthy(body.value.topic) || body.value.value.None?) ==> r == (400, None)
    ensures body.Some? && Truthy(body.value.topic) && body.value.value.Some?
            && !AC.TopicAccessAllowedForRequest(cfg, req, body.value.topic) ==>
            r == (403, None)
    ensures r.1.Some? ==>
      var b := body.value;
      var m := r.1.value.message;
      && b.topic.Some? && m.topic == b.topic.value
      && !r.1.value.fromStream
      && (b.partition.None? ==> m.partition == 0)
      && (b.partition.Some? ==> m.partition == b.partition.value)
      && m.offset == b.offset && m.key == b.key && Some(m.value) == b.value
      && m.timestamp == Some(if b.timestamp.Some? then b.timestamp.value else now)
    ensures r.1.Some? <==> r.0 == 202 || r.0 == 500
    ensures r.1.Some? ==> (r.0 == 202 <==> handle(r.1.value))
    ensures body.Some? && Truthy(body.value.topic) && body.value.value.Some?
            && AC.TopicAccessAllowedForRequest(cfg, req, body.value.topic) ==>
            r.1.Some?
  {
    if body.None? || !Truthy(body.value.topic) || body.value.value.None? then (400, None)
    else if !AC.TopicAccessAllowedForRequest(cfg, req, body.value.topic) then (403, None)
    else
      var b := body.value;
      var message := Message(
        b.topic.value,
        if b.partition.Some? then b.partition.value else 0,
        b.offset,
        b.key,
        b.value.value,
        Some(if b.timestamp.Some? then b.timestamp.value else now));
      var handed := Handed(message, false);
      (if handle(handed) then 202 else 500, Some(handed))
  }

  /** The store and broker calls the delete makes, in order. */
  datatype Effect =
    | ProduceTombstone(topic: string, key: string, partition: string)
    | DeleteKey(topic: string, key: string, fromStream: Option<string>)

  /** DELETE `/key-index/:topic/:key/:partition`. The topic string is passed
      in place of the request, so the access check reads no headers and no
      topic; `config` is what the message handler's `findConfigForTopic`
      answers; the query flags are strings, so any non-empty
      `produceTombstone` asks for a tombstone. */
  function DeleteKeyIndex(cfg: AC.AccessConfig, topic: string, key: string, partition: string,
                          fromStream: Option<string>, produceTombstone: Option<string>,
                          config: Option<TopicConfig>): (r: (int, seq<Effect>))
    ensures !AC.TopicAccessAllowedForRequest(cfg, AC.Request(None), None) ==> r == (403, [])
    ensures AC.TopicAccessAllowedForRequest(cfg, AC.Request(None), None) && Truthy(produceTombstone)
            && (config.None? || config.value.cleanupPolicy != Some("compact")) ==>
            r == (400, [])
    ensures r.0 == 204 <==> r.1 != []
    ensures r.0 == 204 ==> r.1[|r.1| - 1] == DeleteKey(topic, key, fromStream)
    ensures r.0 == 204 ==> (|r.1| == 2 <==> Truthy(produceTombstone))
    ensures r.0 == 204 && |r.1| == 2 ==> r.1[0] == ProduceTombstone(topic, key, partition)
    ensures r.0 == 204 || r.0 == 400 || r.0 == 403
    ensures AC.TopicAccessAllowedForRequest(cfg, AC.Request(None), None)
            && (!Truthy(produceTombstone) || (config.Some? && config.value.cleanupPolicy == Some("compact"))) ==>
            r.0 == 204
  {
    if !AC.TopicAccessAllowedForRequest(cfg, AC.Request(None), None) then (403, [])
    else if Truthy(produceTombstone) then
      if config.None? || config.value.cleanupPolicy != Some("compact") then (400, [])
      else (204, [ProduceTombstone(topic, key, partition), DeleteKey(topic, key, fromStream)])
    else (204, [DeleteKey(topic, key, fromStream)])
  }

  /** Because no token reaches the check, only the wildcard configuration
      lets a key-index delete through. */
  lemma DeleteOnlyUnderWildcard(cfg: AC.AccessConfig, topic: string, key: string, partition: string,
                                fromStream: Option<string>, produceTombstone: Option<string>,
                                config: Option<TopicConfig>)
    ensures DeleteKeyIndex(cfg, topic, key, partition, fromStream, produceTombstone, config).0 != 403 <==> cfg.Wildcard?
  {
  }

  /** `?produceTombstone=false` is a non-empty string, so it takes the
      tombstone path, and without a compacted config it is refused. */
  lemma FalseStringRequestsTombstone(cfg: AC.AccessConfig, topic: string, key: string, partition: string)
    requires cfg.Wildcard?
    ensures DeleteKeyIndex(cfg, topic, key, partition, None, Some("false"), None) == (400, [])
  {
  }
}
