/** The records the core passes around: broker messages, topic
    configurations and hooks with their subscriptions. Fields the source
    may leave `undefined` are optional. */
module Entities {
  import opened Wrappers

  newtype byte = x: int | 0 <= x < 256

  /** A message key or value: a string or a byte buffer. */
  datatype Payload = Text(text: string) | Bytes(bytes: seq<byte>)

  /** JavaScript truthiness of an optional key or value: a buffer object is
      always truthy, a string only when it is not empty. */
  predicate PayloadTruthy(p: Option<Payload>)
  {
    match p
    case None => false
    case Some(Text(s)) => s != ""
    case Some(Bytes(_)) => true
  }

  /** A broker message. */
  datatype Message = Message(
    topic: string,
    partition: int,
    offset: Option<int>,
    key: Option<Payload>,
    value: Option<Payload>,
    timestamp: Option<int>)

  /** A stored topic configuration. */
  datatype TopicConfig = TopicConfig(
    topic: string,
    cleanupPolicy: Option<string>,
    // the routes' `retentionMs`, which the store keeps as `segmentMs`
    retentionMs: Option<int>,
    timestamp: int)

  /** One topic a hook listens to. */
  datatype Subscription = Subscription(topic: string, disabled: bool, ignoreReplay: bool)

  /** A webhook registration, as stored or as sent in a request body. */
  datatype Hook = Hook(
    id: Option<string>,
    name: Option<string>,
    endpoint: Option<string>,
    authorizationHeader: Option<string>,
    authorizationValue: Option<string>,
    disabled: bool,
    subscriptions: Option<seq<Subscription>>,
    timestamp: Option<int>)
}
