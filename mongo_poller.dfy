/** The topic-configuration poller: on every interval it lists the stored
    topic configurations, emits "topic-config-changed" when the fixed hash
    of their topic names changed, and publishes the list as `collected`. */
module MongoPoller {
  import opened Wrappers
  import opened Entities
  import Strings
  import Discovery

  datatype PollerEvent =
    | TopicConfigChanged(topics: seq<string>)
    | Updated(topicConfigs: seq<TopicConfig>)

  /** `topicConfigs.map((c) => c.topic)`. */
  function TopicNames(configs: seq<TopicConfig>): (r: seq<string>)
    ensures |r| == |configs|
    ensures forall i :: 0 <= i < |configs| ==> r[i] == configs[i].topic
  {
    if configs == [] then [] else [configs[0].topic] + TopicNames(configs[1..])
  }

  lemma RemoveAtMultiset<T>(b: seq<T>, k: nat)
    requires k < |b|
    ensures multiset(b[..k] + b[k + 1..]) == multiset(b) - multiset{b[k]}
  {
    assert b == b[..k] + [b[k]] + b[k + 1..];
  }

  class Poller {
    const murmur: string -> int
    /** Whether `topicConfigModel` has been obtained from the store wrapper. */
    var hasTopicConfigModel: bool
    var topicConfigHash: int
    /** `collected.topicConfigs`. */
    var collected: seq<TopicConfig>
    /** The events emitted so far, oldest first. */
    var events: seq<PollerEvent>

    constructor(murmur: string -> int)
      ensures this.murmur == murmur
      ensures !hasTopicConfigModel && topicConfigHash == 0 && collected == [] && events == []
    {
      this.murmur := murmur;
      hasTopicConfigModel := false;
      topicConfigHash := 0;
      collected := [];
      events := [];
    }

    /** One poll, given what `topicConfigModel.list()` answered. The mapped
        topic list is sorted in place by the hash, so the event carries it
        sorted, while `collected` keeps the store's order. */
    method OnInterval(listed: seq<TopicConfig>)
      modifies this
      ensures !old(hasTopicConfigModel) ==> unchanged(this)
      ensures old(hasTopicConfigModel) ==>
        var h := Discovery.ArrayToFixedHash(murmur, TopicNames(listed));
        && hasTopicConfigModel
        && topicConfigHash == h
        && collected == listed
        && events == old(events) +
             (if old(topicConfigHash) != h then [TopicConfigChanged(Strings.Sort(TopicNames(listed)))] else [])
    {
      if !hasTopicConfigModel {
        return;
      }
      var topics := TopicNames(listed);
      var newTopicConfigHash := Discovery.ArrayToFixedHash(murmur, topics);
      topics := Strings.Sort(topics);
      if topicConfigHash != newTopicConfigHash {
        topicConfigHash := newTopicConfigHash;
        events := events + [TopicConfigChanged(topics)];
      }
      collected := listed;
    }

    /** Obtains the model if needed, completes one poll and emits "updated";
        the interval timer it also arms is not modelled. */
    method Start(listed: seq<TopicConfig>)
      modifies this
      ensures hasTopicConfigModel && collected == listed
      ensures topicConfigHash == Discovery.ArrayToFixedHash(murmur, TopicNames(listed))
      ensures events == old(events) +
        (if old(topicConfigHash) != topicConfigHash then [TopicConfigChanged(Strings.Sort(TopicNames(listed)))] else []) +
        [Updated(listed)]
    {
      if !hasTopicConfigModel {
        hasTopicConfigModel := true;
      }
      OnInterval(listed);
      events := events + [Updated(collected)];
    }

    function GetCollected(): seq<TopicConfig>
      reads this
    {
      collected
    }
  }

  /** Polling a reordering of the same configurations never reports a change. */
  lemma ReorderedPollIsQuiet(murmur: string -> int, a: seq<TopicConfig>, b: seq<TopicConfig>)
    requires multiset(a) == multiset(b)
    ensures Discovery.ArrayToFixedHash(murmur, TopicNames(a)) == Discovery.ArrayToFixedHash(murmur, TopicNames(b))
  {
    TopicNamesPermutation(a, b);
    Discovery.FixedHashPermutationInvariant(murmur, TopicNames(a), TopicNames(b));
  }

  lemma TopicNamesAround(b: seq<TopicConfig>, k: nat)
    requires k < |b|
    ensures multiset(TopicNames(b)) ==
      multiset(TopicNames(b[..k] + b[k + 1..])) + multiset{b[k].topic}
  {
    var names := TopicNames(b);
    RemoveAtMultiset(names, k);
    var rest := b[..k] + b[k + 1..];
    var r, s := TopicNames(rest), names[..k] + names[k + 1..];
    forall i | 0 <= i < |r|
      ensures r[i] == s[i]
    {
      if i < k {
        assert rest[i] == b[i];
      } else {
        assert rest[i] == b[i + 1];
      }
    }
    assert r == s;
  }

  /** Removing one occurrence of `a[0]` from `b` keeps the two equal as multisets. */
  lemma RemoveMatching(a: seq<TopicConfig>, b: seq<TopicConfig>) returns (k: nat)
    requires a != [] && multiset(a) == multiset(b)
    ensures k < |b| && b[k] == a[0]
    ensures multiset(a[1..]) == multiset(b[..k] + b[k + 1..])
  {
    var x := a[0];
    assert a == [x] + a[1..];
    assert x in multiset(b);
    k :| 0 <= k < |b| && b[k] == x;
    RemoveAtMultiset(b, k);
  }

  lemma {:induction false} TopicNamesPermutation(a: seq<TopicConfig>, b: seq<TopicConfig>)
    requires multiset(a) == multiset(b)
    ensures multiset(TopicNames(a)) == multiset(TopicNames(b))
    decreases |a|
  {
    if a == [] {
      assert |b| == |multiset(b)| == 0;
    } else {
      var k := RemoveMatching(a, b);
      TopicNamesPermutation(a[1..], b[..k] + b[k + 1..]);
      TopicNamesAround(b, k);
      assert TopicNames(a) == [a[0].topic] + TopicNames(a[1..]);
    }
  }
}
