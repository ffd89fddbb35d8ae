/** Topic discovery: polls the broker's topic list, drops blacklisted
    topics, and reports created and deleted topics whenever the hash of
    the sorted list changes. */
module Discovery {
  import opened Wrappers
  import Strings

  /** `murmur.v3(array.sort().join(":"), 0)`, with the hash as a parameter.
      The runtime sort also reorders the caller's array; see `SortedTopics`. */
  function ArrayToFixedHash(murmur: string -> int, topics: seq<string>): int
  {
    murmur(Strings.Join(Strings.Sort(topics), ":"))
  }

  /** Reordering a list never changes its fixed hash. */
  lemma FixedHashPermutationInvariant(murmur: string -> int, a: seq<string>, b: seq<string>)
    requires multiset(a) == multiset(b)
    ensures ArrayToFixedHash(murmur, a) == ArrayToFixedHash(murmur, b)
  {
    Strings.SortPermutationInvariant(a, b);
  }

  /** `topics.filter((t) => blacklist.indexOf(t) === -1)`. */
  function WithoutBlacklisted(topics: seq<string>, blacklist: seq<string>): (r: seq<string>)
    ensures forall t :: t in r <==> t in topics && t !in blacklist
    ensures |r| <= |topics|
    decreases |topics|
  {
    if topics == [] then []
    else
      var rest := WithoutBlacklisted(topics[1..], blacklist);
      assert topics == [topics[0]] + topics[1..];
      if topics[0] in blacklist then rest else [topics[0]] + rest
  }

  /** The elements of `a` that do not occur in `b`, in the order of `a`. */
  function Difference(a: seq<string>, b: seq<string>): seq<string>
  {
    if a == [] then []
    else Difference(a[..|a| - 1], b) + (if a[|a| - 1] in b then [] else [a[|a| - 1]])
  }

  lemma {:induction false} DifferenceMembers(a: seq<string>, b: seq<string>)
    ensures forall t :: t in Difference(a, b) <==> t in a && t !in b
    decreases |a|
  {
    if a != [] {
      DifferenceMembers(a[..|a| - 1], b);
      assert a == a[..|a| - 1] + [a[|a| - 1]];
    }
  }

  /** The `discovery` section of the configuration. */
  datatype DiscoveryConfig = DiscoveryConfig(enabled: bool, topicBlacklist: Option<seq<string>>)

  datatype DiscoveryEvent =
    | CreatedTopics(created: seq<string>)
    | DeletedTopics(deleted: seq<string>)
    | DiscoveredTopics(discovered: seq<string>)

  /** The blacklist in force: only an array value counts. */
  function Blacklist(config: Option<DiscoveryConfig>): seq<string>
  {
    if config.Some? && config.value.topicBlacklist.Some? then config.value.topicBlacklist.value else []
  }

  /** The list `discoverTopics` works on once the runtime sort has reordered it. */
  function SortedTopics(listed: seq<string>, config: Option<DiscoveryConfig>): (r: seq<string>)
    ensures Strings.Sorted(r)
    ensures forall t :: t in r <==> t in listed && t !in Blacklist(config)
  {
    Strings.Sort(WithoutBlacklisted(listed, Blacklist(config)))
  }

  /** Collects `newTopics`/`deletedTopics`: the loop that pushes each topic of
      `a` missing from `b`. */
  method Missing(a: seq<string>, b: seq<string>) returns (r: seq<string>)
    ensures r == Difference(a, b)
    ensures forall t :: t in r <==> t in a && t !in b
  {
    r := [];
    var i := 0;
    while i < |a|
      invariant 0 <= i <= |a|
      invariant r == Difference(a[..i], b)
    {
      assert a[..i + 1][..i] == a[..i];
      if a[i] !in b {
        r := r + [a[i]];
      }
      i := i + 1;
    }
    assert a[..|a|] == a;
    DifferenceMembers(a, b);
  }

  class Discovery {
    const config: Option<DiscoveryConfig>
    const murmur: string -> int
    var clientAttached: bool
    var isActive: bool
    var lastTopicsHash: Option<int>
    var discoveredTopics: seq<string>
    /** The events emitted so far, oldest first. */
    var events: seq<DiscoveryEvent>

    constructor(config: Option<DiscoveryConfig>, murmur: string -> int)
      ensures this.config == config && this.murmur == murmur
      ensures !clientAttached && !isActive && lastTopicsHash == None
      ensures discoveredTopics == [] && events == []
    {
      this.config := config;
      this.murmur := murmur;
      clientAttached := false;
      isActive := false;
      lastTopicsHash := None;
      discoveredTopics := [];
      events := [];
    }

    predicate Enabled()
    {
      config.Some? && config.value.enabled
    }

    /** Attaches the client and marks discovery active, unless discovery is
        missing from the configuration or disabled; the timer-driven
        `discover` loop that follows is not modelled. */
    method Start()
      modifies this
      ensures !Enabled() ==> unchanged(this)
      ensures Enabled() ==> clientAttached && isActive
      ensures lastTopicsHash == old(lastTopicsHash) && discoveredTopics == old(discoveredTopics)
      ensures events == old(events)
    {
      if !Enabled() {
        return;
      }
      clientAttached := true;
      isActive := true;
    }

    /** One scan, given the topic list the broker returned (`None` for a
        null answer). Answers whether a change was reported. */
    method DiscoverTopics(listed: Option<seq<string>>) returns (changed: bool)
      modifies this
      ensures listed.None? || listed.value == [] ==> !changed && unchanged(this)
      ensures listed.Some? && listed.value != [] ==>
        var topics := SortedTopics(listed.value, config);
        var h := ArrayToFixedHash(murmur, WithoutBlacklisted(listed.value, Blacklist(config)));
        && (changed <==> old(lastTopicsHash) != Some(h))
        && (!changed ==> unchanged(this))
        && (changed ==>
              && lastTopicsHash == Some(h)
              && discoveredTopics == topics
              && events == old(events) + [
                   CreatedTopics(Difference(topics, old(discoveredTopics))),
                   DeletedTopics(Difference(old(discoveredTopics), topics)),
                   DiscoveredTopics(topics)])
      ensures clientAttached == old(clientAttached) && isActive == old(isActive)
    {
      if listed.None? || listed.value == [] {
        return false;
      }
      var filtered := WithoutBlacklisted(listed.value, Blacklist(config));
      var newTopicsHash := ArrayToFixedHash(murmur, filtered);
      var topics := Strings.Sort(filtered);
      if lastTopicsHash == Some(newTopicsHash) {
        return false;
      }
      lastTopicsHash := Some(newTopicsHash);
      var newTopics := Missing(topics, discoveredTopics);
      events := events + [CreatedTopics(newTopics)];
      var deletedTopics := Missing(discoveredTopics, topics);
      events := events + [DeletedTopics(deletedTopics)];
      discoveredTopics := topics;
      events := events + [DiscoveredTopics(topics)];
      return true;
    }

    function GetDiscoveredTopics(): seq<string>
      reads this
    {
      discoveredTopics
    }
  }
}
