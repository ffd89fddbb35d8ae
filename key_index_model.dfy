/** The key index: one record per (hashed key, hashed topic) pair holding
    the latest message seen for it, the store behind log compaction. */
module KeyIndexModel {
  import opened Wrappers
  import opened Entities
  import Strings
  import DocStore

  /** A stored record. `key` is null for messages without a truthy key. */
  datatype KeyIndexDoc = KeyIndexDoc(
    key: Option<int>,
    topic: int,
    timestamp: int,
    partition: int,
    offset: Option<int>,
    keyValue: Option<Payload>,
    value: Option<Payload>,
    // the source stores a `Buffer` of this string's ASCII bytes
    timestampValue: Option<string>)

  /** The document `upsert` builds. `hash` is murmurhash v3 with seed 0,
      `toText` is the key's `toString()`, `timestamp` the optional argument
      that defaults to `now`. */
  function Document(hash: string -> int, toText: Payload -> string, message: Message,
                    timestamp: Option<int>, now: int): (d: KeyIndexDoc)
    ensures d.key.Some? <==> PayloadTruthy(message.key)
    ensures d.key.Some? ==> d.key.value == hash(toText(message.key.value))
    ensures d.topic == hash(message.topic)
    ensures d.timestamp == (if timestamp.Some? then timestamp.value else now)
    ensures d.timestampValue.Some? <==> message.timestamp.Some? && message.timestamp.value != 0
    ensures d.timestampValue.Some? ==>
      d.timestampValue.value != "" && (d.timestampValue.value[0] == '-' <==> message.timestamp.value < 0)
    ensures d.timestampValue.Some? ==> d.timestampValue.value == Strings.IntToString(message.timestamp.value)
    ensures d.partition == message.partition && d.offset == message.offset
    ensures d.keyValue == message.key && d.value == message.value
  {
    KeyIndexDoc(
      if PayloadTruthy(message.key) then Some(hash(toText(message.key.value))) else None,
      hash(message.topic),
      if timestamp.Some? then timestamp.value else now,
      message.partition,
      message.offset,
      message.key,
      message.value,
      if message.timestamp.Some? && message.timestamp.value != 0
      then Some(Strings.IntToString(message.timestamp.value)) else None)
  }

  /** The query `{key: document.key, topic: document.topic}`. */
  function SameSlot(d: KeyIndexDoc): KeyIndexDoc -> bool
  {
    (r: KeyIndexDoc) => r.key == d.key && r.topic == d.topic
  }

  /** The document replaces the record of its pair, or is inserted. */
  function UpsertRows(rows: seq<KeyIndexDoc>, d: KeyIndexDoc): seq<KeyIndexDoc>
  {
    DocStore.Upsert(rows, SameSlot(d), (_: KeyIndexDoc) => d, d).0
  }

  /** At most one record per (key, topic) pair. */
  predicate UniqueSlots(rows: seq<KeyIndexDoc>)
  {
    forall i, j :: 0 <= i < j < |rows| ==> !(rows[i].key == rows[j].key && rows[i].topic == rows[j].topic)
  }

  /** The new document sits in its pair's slot and the other records keep
      their places; at most one record is added. */
  lemma UpsertShape(rows: seq<KeyIndexDoc>, d: KeyIndexDoc)
    ensures |rows| <= |UpsertRows(rows, d)| <= |rows| + 1
    ensures d in UpsertRows(rows, d)
    ensures forall k :: 0 <= k < |rows| ==>
      UpsertRows(rows, d)[k] == (if SameSlot(d)(rows[k]) && DocStore.FirstMatch(rows, SameSlot(d)) == Some(k) then d else rows[k])
    ensures |UpsertRows(rows, d)| == |rows| + 1 <==> forall k :: 0 <= k < |rows| ==> !SameSlot(d)(rows[k])
  {
    var after := UpsertRows(rows, d);
    var m := DocStore.FirstMatch(rows, SameSlot(d));
    if m.Some? {
      assert after[m.value] == d;
    } else {
      assert after[|rows|] == d;
    }
  }

  /** Sequential upserts keep at most one record per pair. */
  lemma UpsertKeepsUnique(rows: seq<KeyIndexDoc>, d: KeyIndexDoc)
    requires UniqueSlots(rows)
    ensures UniqueSlots(UpsertRows(rows, d))
  {
    UpsertShape(rows, d);
  }

  /** The last write wins: a lookup of the pair finds the document just written. */
  lemma LastWriteWins(rows: seq<KeyIndexDoc>, d: KeyIndexDoc)
    ensures DocStore.FindOne(UpsertRows(rows, d), SameSlot(d)) == Some(d)
  {
    var after := UpsertRows(rows, d);
    UpsertShape(rows, d);
    var m := DocStore.FirstMatch(rows, SameSlot(d));
    if m.Some? {
      assert forall k :: 0 <= k < m.value ==> after[k] == rows[k];
      assert DocStore.FirstMatch(after, SameSlot(d)) == m;
    } else {
      assert DocStore.FirstMatch(after, SameSlot(d)) == Some(|rows|);
    }
  }

  /** Records of every other pair are left as they were. */
  lemma UpsertKeepsOtherPairs(rows: seq<KeyIndexDoc>, d: KeyIndexDoc, x: KeyIndexDoc)
    requires x in rows && !SameSlot(d)(x)
    ensures multiset(UpsertRows(rows, d))[x] == multiset(rows)[x]
  {
    var m := DocStore.FirstMatch(rows, SameSlot(d));
    var after := UpsertRows(rows, d);
    if m.Some? {
      var i := m.value;
      assert rows == rows[..i] + [rows[i]] + rows[i + 1..];
      assert after == rows[..i] + [d] + rows[i + 1..];
    } else {
      assert after == rows + [d];
    }
  }

  /** All messages of one topic without a truthy key share the null-key
      slot: two of them in a row leave a single record, the second one. */
  lemma FalsyKeysCollapse(hash: string -> int, toText: Payload -> string, rows: seq<KeyIndexDoc>,
                          m1: Message, m2: Message, t1: Option<int>, t2: Option<int>, now: int)
    requires UniqueSlots(rows)
    requires m1.topic == m2.topic && !PayloadTruthy(m1.key) && !PayloadTruthy(m2.key)
    ensures
      var d1 := Document(hash, toText, m1, t1, now);
      var d2 := Document(hash, toText, m2, t2, now);
      var after := UpsertRows(UpsertRows(rows, d1), d2);
      && d2.key.None?
      && UniqueSlots(after)
      && DocStore.FindOne(after, SameSlot(d1)) == Some(d2)
  {
    var d1 := Document(hash, toText, m1, t1, now);
    var d2 := Document(hash, toText, m2, t2, now);
    UpsertKeepsUnique(rows, d1);
    UpsertKeepsUnique(UpsertRows(rows, d1), d2);
    LastWriteWins(UpsertRows(rows, d1), d2);
    assert SameSlot(d1) == SameSlot(d2) by {
      assert d1.key == d2.key && d1.topic == d2.topic;
    }
  }

  /** The query `{topic: hash(topic)}`. */
  function TopicHashIs(hashed: int): KeyIndexDoc -> bool
  {
    (r: KeyIndexDoc) => r.topic == hashed
  }

  class KeyIndexModel {
    const hash: string -> int
    const toText: Payload -> string
    var rows: seq<KeyIndexDoc>

    constructor(hash: string -> int, toText: Payload -> string)
      ensures this.hash == hash && this.toText == toText && rows == []
    {
      this.hash := hash;
      this.toText := toText;
      rows := [];
    }

    /** `upsert(message, timestamp = Date.now())`; the clock reading is `now`. */
    method Upsert(message: Message, timestamp: Option<int>, now: int)
      modifies this
      ensures rows == UpsertRows(old(rows), Document(hash, toText, message, timestamp, now))
    {
      var document := Document(hash, toText, message, timestamp, now);
      rows := DocStore.Upsert(rows, SameSlot(document), (_: KeyIndexDoc) => document, document).0;
    }

    /** `deleteForTopic(topic)`: every record of the topic goes, every
        record of another topic hash stays. */
    method DeleteForTopic(topic: string)
      modifies this
      ensures rows == DocStore.DeleteMany(old(rows), TopicHashIs(hash(topic)))
      ensures forall r :: r in rows ==> r.topic != hash(topic)
    {
      rows := DocStore.DeleteMany(rows, TopicHashIs(hash(topic)));
    }

    method TruncateCollection()
      modifies this
      ensures rows == []
    {
      DocStore.DeleteAllEmpties(rows);
      rows := DocStore.DeleteMany(rows, DocStore.All);
    }
  }
}
