/** The hook dealer: flattens the stored hooks into an index from topic to
    the active hook views subscribed to it, and answers the per-message
    lookups against that index and the polled topic configurations. */
module HookDealer {
  import opened Wrappers
  import opened Entities
  import MongoPoller
  import Seqs

  /** A hook clone with `subscriptions` removed and the subscription's
      `ignoreReplay` flag copied in. */
  datatype HookView = HookView(
    id: Option<string>,
    name: Option<string>,
    endpoint: Option<string>,
    authorizationHeader: Option<string>,
    authorizationValue: Option<string>,
    disabled: bool,
    timestamp: Option<int>,
    ignoreReplay: bool)

  function View(h: Hook, s: Subscription): HookView
  {
    HookView(h.id, h.name, h.endpoint, h.authorizationHeader, h.authorizationValue,
             h.disabled, h.timestamp, s.ignoreReplay)
  }

  /** A view filed under the topic of the subscription that produced it. */
  datatype Entry = Entry(topic: string, view: HookView)

  /** The entries the enabled subscriptions in `subs` contribute, in order. */
  function SubscriptionEntries(h: Hook, subs: seq<Subscription>): seq<Entry>
  {
    if subs == [] then []
    else
      var s := subs[|subs| - 1];
      SubscriptionEntries(h, subs[..|subs| - 1]) + (if s.disabled then [] else [Entry(s.topic, View(h, s))])
  }

  /** A disabled hook, or one without subscriptions, contributes nothing. */
  function HookEntries(h: Hook): seq<Entry>
  {
    if h.disabled || h.subscriptions.None? then [] else SubscriptionEntries(h, h.subscriptions.value)
  }

  /** The entries of all hooks, in the order the two loops visit them. */
  function Entries(hooks: seq<Hook>): seq<Entry>
  {
    Seqs.FlatMap(hooks, HookEntries)
  }

  /** Files one entry, starting the topic's list when it is missing. */
  function Append(m: map<string, seq<HookView>>, e: Entry): map<string, seq<HookView>>
  {
    m[e.topic := (if e.topic in m then m[e.topic] else []) + [e.view]]
  }

  /** The index the corrected update builds from a list of entries. */
  function Index(es: seq<Entry>): map<string, seq<HookView>>
  {
    if es == [] then map[] else Append(Index(es[..|es| - 1]), es[|es| - 1])
  }

  /** The views filed under topic `t`, in order: the reference definition of one index slot. */
  function ViewsFor(es: seq<Entry>, t: string): seq<HookView>
  {
    if es == [] then []
    else ViewsFor(es[..|es| - 1], t) + (if es[|es| - 1].topic == t then [es[|es| - 1].view] else [])
  }

  /** The members every plain `{}` inherits from `Object.prototype` (all of
      them functions, so truthy): looking a topic of that name up in the
      index finds one even where the index has no list for it. */
  const INHERITED_KEYS: set<string> := {
    "constructor", "hasOwnProperty", "isPrototypeOf", "propertyIsEnumerable",
    "toLocaleString", "toString", "valueOf",
    "__defineGetter__", "__defineSetter__", "__lookupGetter__", "__lookupSetter__"}

  /** `index[topic]` on the source's `{}`: an own list or an inherited member. */
  predicate Found(m: map<string, seq<HookView>>, topic: string)
  {
    topic in m || topic in INHERITED_KEYS
  }

  /** Every entry's topic is an inherited name. */
  predicate AllInherited(es: seq<Entry>)
  {
    forall k :: 0 <= k < |es| ==> es[k].topic in INHERITED_KEYS
  }

  /** The index the update as written builds when it does not throw: each
      entry resets its topic's list and then pushes, so a list holds only
      the last view filed under it. */
  function LastIndex(es: seq<Entry>): map<string, seq<HookView>>
  {
    if es == [] then map[] else LastIndex(es[..|es| - 1])[es[|es| - 1].topic := [es[|es| - 1].view]]
  }

  /** The update as written keeps, per topic, only the last of its views. */
  lemma {:induction false} LastIndexIsLastView(es: seq<Entry>, t: string)
    ensures t in LastIndex(es) <==> ViewsFor(es, t) != []
    ensures t in LastIndex(es) ==> LastIndex(es)[t] == [ViewsFor(es, t)[|ViewsFor(es, t)| - 1]]
    decreases |es|
  {
    if es != [] {
      LastIndexIsLastView(es[..|es| - 1], t);
    }
  }

  /** Subscription `j` of hook `i` is enabled and its hook is enabled with subscriptions. */
  predicate ActiveAt(hooks: seq<Hook>, i: int, j: int)
  {
    && 0 <= i < |hooks|
    && !hooks[i].disabled
    && hooks[i].subscriptions.Some?
    && 0 <= j < |hooks[i].subscriptions.value|
    && !hooks[i].subscriptions.value[j].disabled
  }

  function EntryAt(hooks: seq<Hook>, i: int, j: int): Entry
    requires ActiveAt(hooks, i, j)
  {
    var s := hooks[i].subscriptions.value[j];
    Entry(s.topic, View(hooks[i], s))
  }

  lemma {:induction false} SubscriptionEntriesAppend(h: Hook, a: seq<Subscription>, b: seq<Subscription>)
    ensures SubscriptionEntries(h, a + b) == SubscriptionEntries(h, a) + SubscriptionEntries(h, b)
    decreases |b|
  {
    if b == [] {
      assert a + b == a;
    } else {
      var n := |b| - 1;
      assert (a + b)[..|a + b| - 1] == a + b[..n];
      SubscriptionEntriesAppend(h, a, b[..n]);
    }
  }

  lemma {:induction false} SubscriptionEntriesActive(h: Hook, subs: seq<Subscription>, k: int) returns (j: int)
    requires 0 <= k < |SubscriptionEntries(h, subs)|
    ensures 0 <= j < |subs| && !subs[j].disabled
    ensures SubscriptionEntries(h, subs)[k] == Entry(subs[j].topic, View(h, subs[j]))
    decreases |subs|
  {
    var n := |subs| - 1;
    if k < |SubscriptionEntries(h, subs[..n])| {
      j := SubscriptionEntriesActive(h, subs[..n], k);
      assert subs[..n][j] == subs[j];
    } else {
      j := n;
    }
  }

  /** Every entry comes from an active subscription. */
  lemma EntriesAreActive(hooks: seq<Hook>, k: int)
    requires 0 <= k < |Entries(hooks)|
    ensures exists i, j :: ActiveAt(hooks, i, j) && Entries(hooks)[k] == EntryAt(hooks, i, j)
  {
    var i, l := Seqs.FlatMapSource(hooks, HookEntries, k);
    var j := SubscriptionEntriesActive(hooks[i], hooks[i].subscriptions.value, l);
    assert ActiveAt(hooks, i, j);
  }

  lemma SingleSubscription(h: Hook, s: Subscription)
    ensures SubscriptionEntries(h, [s]) == (if s.disabled then [] else [Entry(s.topic, View(h, s))])
  {
    assert [s][..0] == [];
  }

  lemma SubscriptionIsListed(h: Hook, subs: seq<Subscription>, j: int)
    requires 0 <= j < |subs| && !subs[j].disabled
    ensures Entry(subs[j].topic, View(h, subs[j])) in SubscriptionEntries(h, subs)
  {
    assert subs == subs[..j] + ([subs[j]] + subs[j + 1..]);
    SubscriptionEntriesAppend(h, subs[..j], [subs[j]] + subs[j + 1..]);
    SubscriptionEntriesAppend(h, [subs[j]], subs[j + 1..]);
    SingleSubscription(h, subs[j]);
  }

  /** Every active subscription is listed. */
  lemma ActiveIsListed(hooks: seq<Hook>, i: int, j: int)
    requires ActiveAt(hooks, i, j)
    ensures EntryAt(hooks, i, j) in Entries(hooks)
  {
    SubscriptionIsListed(hooks[i], hooks[i].subscriptions.value, j);
    Seqs.FlatMapMember(hooks, HookEntries, i, EntryAt(hooks, i, j));
  }

  lemma EntriesSnoc(hs: seq<Hook>, i: int)
    requires 0 <= i < |hs|
    ensures Entries(hs[..i + 1]) == Entries(hs[..i]) + HookEntries(hs[i])
  {
    assert hs[..i + 1][..i] == hs[..i];
  }

  lemma SubscriptionEntriesSnoc(h: Hook, subs: seq<Subscription>, j: int)
    requires 0 <= j < |subs|
    ensures SubscriptionEntries(h, subs[..j + 1]) == SubscriptionEntries(h, subs[..j]) +
      (if subs[j].disabled then [] else [Entry(subs[j].topic, View(h, subs[j]))])
  {
    assert subs[..j + 1][..j] == subs[..j];
  }

  lemma IndexSnoc(es: seq<Entry>, e: Entry)
    ensures Index(es + [e]) == Append(Index(es), e)
  {
    assert (es + [e])[..|es|] == es;
  }

  /** The index files exactly the views of each topic, in order, and no other topic. */
  lemma {:induction false} IndexIsViewsFor(es: seq<Entry>, t: string)
    ensures t in Index(es) <==> ViewsFor(es, t) != []
    ensures t in Index(es) ==> Index(es)[t] == ViewsFor(es, t)
    decreases |es|
  {
    if es != [] {
      IndexIsViewsFor(es[..|es| - 1], t);
    }
  }

  /** The total length of the index lists is the number of entries. */
  lemma {:induction false} ViewsForCount(es: seq<Entry>, t: string)
    ensures |ViewsFor(es, t)| <= |es|
    ensures (forall k :: 0 <= k < |es| ==> es[k].topic == t) ==> |ViewsFor(es, t)| == |es|
    decreases |es|
  {
    if es != [] {
      ViewsForCount(es[..|es| - 1], t);
    }
  }

  /** The inner loop of the corrected update: files every enabled
      subscription of `h` into `m`, creating missing lists. */
  method FileSubscriptions(m0: map<string, seq<HookView>>, n0: int, h: Hook, subs: seq<Subscription>, ghost done: seq<Entry>)
    returns (m: map<string, seq<HookView>>, endpoints: int)
    requires m0 == Index(done) && n0 == |done|
    ensures m == Index(done + SubscriptionEntries(h, subs))
    ensures endpoints == |done + SubscriptionEntries(h, subs)|
  {
    m, endpoints := m0, n0;
    ghost var cur := done;
    var j := 0;
    assert subs[..0] == [];
    while j < |subs|
      invariant 0 <= j <= |subs|
      invariant cur == done + SubscriptionEntries(h, subs[..j])
      invariant m == Index(cur) && endpoints == |cur|
    {
      SubscriptionEntriesSnoc(h, subs, j);
      var s := subs[j];
      if !s.disabled {
        ghost var e := Entry(s.topic, View(h, s));
        if s.topic !in m {
          m := m[s.topic := []];
        }
        m := m[s.topic := m[s.topic] + [View(h, s)]];
        endpoints := endpoints + 1;
        IndexSnoc(cur, e);
        assert m == Index(cur + [e]);
        assert done + (SubscriptionEntries(h, subs[..j]) + [e]) == cur + [e];
        cur := cur + [e];
      }
      j := j + 1;
    }
    assert subs[..|subs|] == subs;
  }

  lemma LastIndexSnoc(es: seq<Entry>, e: Entry)
    ensures LastIndex(es + [e]) == LastIndex(es)[e.topic := [e.view]]
    ensures AllInherited(es) && e.topic in INHERITED_KEYS ==> AllInherited(es + [e])
  {
    assert (es + [e])[..|es|] == es;
  }

  /** Only topics of the entries get a list. */
  lemma {:induction false} LastIndexKeys(es: seq<Entry>, t: string)
    requires t in LastIndex(es)
    ensures exists k :: 0 <= k < |es| && es[k].topic == t
    decreases |es|
  {
    var n := |es| - 1;
    if es[n].topic != t {
      LastIndexKeys(es[..n], t);
      var k :| 0 <= k < n && es[..n][k].topic == t;
      assert es[k].topic == t;
    }
  }

  /** The inner loop as written, over one hook's subscriptions: a topic the
      `{}` lookup finds has its list reset and then receives the view; any
      other topic is pushed onto `undefined`, which throws. */
  method FileSubscriptionsAsWritten(m0: map<string, seq<HookView>>, n0: int, h: Hook, subs: seq<Subscription>,
                                    ghost done: seq<Entry>)
    returns (m: map<string, seq<HookView>>, endpoints: int, thrown: bool)
    requires m0 == LastIndex(done) && n0 == |done| && AllInherited(done)
    ensures thrown ==> exists j :: 0 <= j < |subs| && !subs[j].disabled && subs[j].topic !in INHERITED_KEYS
    ensures !thrown ==>
      var es := done + SubscriptionEntries(h, subs);
      AllInherited(es) && m == LastIndex(es) && endpoints == |es|
  {
    m, endpoints, thrown := m0, n0, false;
    ghost var cur := done;
    var j := 0;
    assert subs[..0] == [];
    while j < |subs|
      invariant 0 <= j <= |subs|
      invariant cur == done + SubscriptionEntries(h, subs[..j])
      invariant AllInherited(cur) && m == LastIndex(cur) && endpoints == |cur|
    {
      SubscriptionEntriesSnoc(h, subs, j);
      var s := subs[j];
      if !s.disabled {
        ghost var e := Entry(s.topic, View(h, s));
        if !Found(m, s.topic) {
          // pushing onto `undefined` throws a TypeError
          return m, endpoints, true;
        }
        if s.topic in m {
          LastIndexKeys(cur, s.topic);
        }
        // the list found is reset, then receives this view
        m := m[s.topic := [] + [View(h, s)]];
        endpoints := endpoints + 1;
        LastIndexSnoc(cur, e);
        assert [] + [View(h, s)] == [e.view];
        assert m == LastIndex(cur + [e]);
        assert done + (SubscriptionEntries(h, subs[..j]) + [e]) == cur + [e];
        cur := cur + [e];
      }
      j := j + 1;
    }
    assert subs[..|subs|] == subs;
  }

  class HookDealer {
    const poller: MongoPoller.Poller
    /** `topicSubscriptionMap`; `None` until an update completes. */
    var topicSubscriptionMap: Option<map<string, seq<HookView>>>
    var oldTopicSubscriptionLength: int
    /** The values set on the `configured_active_subscriptions` gauge, oldest first. */
    var gaugeWrites: seq<int>

    constructor(poller: MongoPoller.Poller)
      ensures this.poller == poller
      ensures topicSubscriptionMap == None && oldTopicSubscriptionLength == 0 && gaugeWrites == []
    {
      this.poller := poller;
      topicSubscriptionMap := None;
      oldTopicSubscriptionLength := 0;
      gaugeWrites := [];
    }

    /** `processHookUpdate` as written: the guard that should create a missing
        list resets a found one instead. The first active subscription whose
        topic is not an inherited name pushes onto a missing list and throws
        before the map is swapped in; when every active topic is inherited,
        each topic's list ends with only its last view. */
    method ProcessHookUpdate(hooks: Option<seq<Hook>>) returns (thrown: bool)
      modifies this
      ensures hooks.None? ==> !thrown && unchanged(this)
      ensures hooks.Some? ==>
        (thrown <==> exists k :: 0 <= k < |Entries(hooks.value)| && Entries(hooks.value)[k].topic !in INHERITED_KEYS)
      ensures thrown ==> unchanged(this)
      ensures hooks.Some? && !thrown ==>
        var es := Entries(hooks.value);
        && topicSubscriptionMap == Some(LastIndex(es))
        && oldTopicSubscriptionLength == |es|
        && gaugeWrites == old(gaugeWrites) + (if old(oldTopicSubscriptionLength) != |es| then [|es|] else [])
    {
      if hooks.None? {
        return false;
      }
      var hs := hooks.value;
      var endpoints := 0;
      var m: map<string, seq<HookView>> := map[];
      var i := 0;
      while i < |hs|
        invariant 0 <= i <= |hs|
        invariant AllInherited(Entries(hs[..i]))
        invariant m == LastIndex(Entries(hs[..i])) && endpoints == |Entries(hs[..i])|
        invariant unchanged(this)
      {
        EntriesSnoc(hs, i);
        var h := hs[i];
        ghost var done := Entries(hs[..i]);
        if !h.disabled && h.subscriptions.Some? {
          var failed;
          m, endpoints, failed := FileSubscriptionsAsWritten(m, endpoints, h, h.subscriptions.value, done);
          if failed {
            ghost var j :| 0 <= j < |h.subscriptions.value| && !h.subscriptions.value[j].disabled
                           && h.subscriptions.value[j].topic !in INHERITED_KEYS;
            assert ActiveAt(hs, i, j);
            ActiveIsListed(hs, i, j);
            return true;
          }
        } else {
          assert done + [] == done;
        }
        i := i + 1;
      }
      assert hs[..|hs|] == hs;
      if endpoints != oldTopicSubscriptionLength {
        oldTopicSubscriptionLength := endpoints;
        gaugeWrites := gaugeWrites + [endpoints];
      }
      topicSubscriptionMap := Some(m);
      return false;
    }

    /** The update as evidently intended: a missing list is created, then
        every active subscription appends its view. The index is taken to be
        a dictionary without inherited members. */
    method ProcessHookUpdateIntended(hooks: Option<seq<Hook>>)
      modifies this
      ensures hooks.None? ==> unchanged(this)
      ensures hooks.Some? ==>
        var es := Entries(hooks.value);
        && topicSubscriptionMap == Some(Index(es))
        && oldTopicSubscriptionLength == |es|
        && gaugeWrites == old(gaugeWrites) + (if old(oldTopicSubscriptionLength) != |es| then [|es|] else [])
    {
      if hooks.None? {
        return;
      }
      var hs := hooks.value;
      var endpoints := 0;
      var m: map<string, seq<HookView>> := map[];
      var i := 0;
      while i < |hs|
        invariant 0 <= i <= |hs|
        invariant m == Index(Entries(hs[..i])) && endpoints == |Entries(hs[..i])|
        invariant unchanged(this)
      {
        EntriesSnoc(hs, i);
        var h := hs[i];
        ghost var done := Entries(hs[..i]);
        if !h.disabled && h.subscriptions.Some? {
          m, endpoints := FileSubscriptions(m, endpoints, h, h.subscriptions.value, done);
        } else {
          assert done + [] == done;
        }
        i := i + 1;
      }
      assert hs[..|hs|] == hs;
      ghost var es := Entries(hs);
      assert m == Index(es) && endpoints == |es|;
      if endpoints != oldTopicSubscriptionLength {
        oldTopicSubscriptionLength := endpoints;
        gaugeWrites := gaugeWrites + [endpoints];
      }
      topicSubscriptionMap := Some(m);
    }

    /** `findConfigForTopic`: the last polled configuration for `topic`. */
    method FindConfigForTopic(topic: string) returns (r: Option<TopicConfig>)
      ensures r.None? <==> forall i :: 0 <= i < |poller.collected| ==> poller.collected[i].topic != topic
      ensures r.Some? ==> r.value.topic == topic
      ensures r.Some? ==> exists i :: (0 <= i < |poller.collected| && poller.collected[i] == r.value
        && forall j :: i < j < |poller.collected| ==> poller.collected[j].topic != topic)
    {
      var topicConfigs := poller.GetCollected();
      var i := |topicConfigs| - 1;
      while i >= 0
        invariant -1 <= i < |topicConfigs|
        invariant forall j :: i < j < |topicConfigs| ==> topicConfigs[j].topic != topic
      {
        if topicConfigs[i].topic == topic {
          return Some(topicConfigs[i]);
        }
        i := i - 1;
      }
      return None;
    }

    /** `handleMessage`: reading the map before any update completed throws;
        otherwise the answer is whether the `{}` lookup of the message's
        topic finds something: a list, or an inherited member. */
    method HandleMessage(message: Message) returns (r: Result<bool>)
      ensures topicSubscriptionMap.None? <==> r.Err?
      ensures r.Ok? ==> (r.value <==> message.topic in topicSubscriptionMap.value || message.topic in INHERITED_KEYS)
    {
      if topicSubscriptionMap.None? {
        return Err("Cannot read properties of undefined");
      }
      var subscriptions := Found(topicSubscriptionMap.value, message.topic);
      if !subscriptions {
        return Ok(false);
      }
      return Ok(true);
    }

    /** `handleRetryMessage`: false exactly when no configuration exists for the topic. */
    method HandleRetryMessage(message: Message) returns (r: bool)
      ensures r <==> exists i :: 0 <= i < |poller.collected| && poller.collected[i].topic == message.topic
    {
      var config := FindConfigForTopic(message.topic);
      if config.None? {
        return false;
      }
      return true;
    }

    /** `handleReplayMessage`: false exactly when no configuration exists for the topic. */
    method HandleReplayMessage(message: Message) returns (r: bool)
      ensures r <==> exists i :: 0 <= i < |poller.collected| && poller.collected[i].topic == message.topic
    {
      var config := FindConfigForTopic(message.topic);
      if config.None? {
        return false;
      }
      return true;
    }
  }
}
