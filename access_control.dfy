/** Access control for the HTTP API: a configuration mapping tokens to the
    topics they may use (or to "*"), normalised and validated once, and
    two allow/deny decisions over it. */
module AccessControl {
  import opened Wrappers
  import Strings

  /** A configuration value as the JSON configuration file can hold it. */
  datatype Json =
    | JNull
    | JBool(b: bool)
    | JNum(n: int)
    | JStr(s: string)
    | JArr(items: seq<Json>)
    | JObj(fields: map<string, Json>)

  const WILDCARD: string := "*"

  /** JavaScript truthiness of a defined value. */
  predicate JsTruthy(v: Json)
  {
    match v
    case JNull => false
    case JBool(b) => b
    case JNum(n) => n != 0
    case JStr(s) => s != ""
    case JArr(_) => true
    case JObj(_) => true
  }

  /** `Object.keys(v).length`: strings and arrays have their indices as
      keys, objects their properties, other primitives none. */
  function KeyCount(v: Json): nat
  {
    match v
    case JStr(s) => |s|
    case JArr(items) => |items|
    case JObj(fields) => |fields.Keys|
    case _ => 0
  }

  /** What one token may access once validated. */
  datatype TokenAccess = AllTopics | TopicList(topics: seq<string>)

  /** The normalised configuration: the wildcard, an object keyed by token,
      or an array (whose keys are the decimal indices). */
  datatype AccessConfig =
    | Wildcard
    | ByToken(tokens: map<string, TokenAccess>)
    | ByIndex(entries: seq<TokenAccess>)

  /** A per-token value passes validation: "*" or an array of strings. */
  predicate ValidValue(v: Json)
  {
    v == JStr(WILDCARD) || (v.JArr? && forall i :: 0 <= i < |v.items| ==> v.items[i].JStr?)
  }

  function Strs(items: seq<Json>): (r: seq<string>)
    requires forall i :: 0 <= i < |items| ==> items[i].JStr?
    ensures |r| == |items| && forall i :: 0 <= i < |items| ==> r[i] == items[i].s
  {
    if items == [] then [] else [items[0].s] + Strs(items[1..])
  }

  function Decode(v: Json): (r: TokenAccess)
    requires ValidValue(v)
    ensures r.AllTopics? <==> v == JStr(WILDCARD)
    ensures r.TopicList? ==> forall t :: t in r.topics <==> JStr(t) in v.items
  {
    if v == JStr(WILDCARD) then AllTopics
    else
      var topics := Strs(v.items);
      assert forall t :: JStr(t) in v.items ==> t in topics by {
        forall t | JStr(t) in v.items
          ensures t in topics
        {
          var i :| 0 <= i < |v.items| && v.items[i] == JStr(t);
          assert topics[i] == t;
        }
      }
      TopicList(topics)
  }

  function DecodeAll(items: seq<Json>): (r: seq<TokenAccess>)
    requires forall i :: 0 <= i < |items| ==> ValidValue(items[i])
    ensures |r| == |items| && forall i :: 0 <= i < |items| ==> r[i] == Decode(items[i])
  {
    if items == [] then [] else [Decode(items[0])] + DecodeAll(items[1..])
  }

  /** Missing, falsy and key-less configurations switch to "allow everything". */
  predicate SwitchesToWildcard(raw: Option<Json>)
  {
    raw.None? || !JsTruthy(raw.value) || KeyCount(raw.value) == 0
  }

  /** The constructor: normalisation, then validation, which throws for a
      non-object or for a value that is neither "*" nor an array of strings. */
  function Configure(raw: Option<Json>): (r: Result<AccessConfig>)
    ensures SwitchesToWildcard(raw) || raw == Some(JStr(WILDCARD)) ==> r == Ok(Wildcard)
    ensures !SwitchesToWildcard(raw) && raw != Some(JStr(WILDCARD)) ==>
      (r.Ok? <==>
        || (raw.value.JObj? && forall k :: k in raw.value.fields ==> ValidValue(raw.value.fields[k]))
        || (raw.value.JArr? && forall i :: 0 <= i < |raw.value.items| ==> ValidValue(raw.value.items[i])))
    ensures r.Ok? && r.value.ByToken? ==>
      && raw.Some? && raw.value.JObj? && r.value.tokens.Keys == raw.value.fields.Keys
      && forall k :: k in raw.value.fields ==> ValidValue(raw.value.fields[k]) && r.value.tokens[k] == Decode(raw.value.fields[k])
    ensures r.Ok? && r.value.ByIndex? ==>
      && raw.Some? && raw.value.JArr? && |r.value.entries| == |raw.value.items|
      && forall i :: 0 <= i < |raw.value.items| ==> ValidValue(raw.value.items[i]) && r.value.entries[i] == Decode(raw.value.items[i])
  {
    if SwitchesToWildcard(raw) then Ok(Wildcard)
    else
      match raw.value
      case JStr(s) => if s == WILDCARD then Ok(Wildcard) else Err("Bad access configuration provided (object)")
      case JObj(fields) =>
        if forall k :: k in fields ==> ValidValue(fields[k]) then
          Ok(ByToken(map k | k in fields :: Decode(fields[k])))
        else Err("Bad access configuration provided (key or wildcard)")
      case JArr(items) =>
        if forall i :: 0 <= i < |items| ==> ValidValue(items[i]) then
          Ok(ByIndex(DecodeAll(items)))
        else Err("Bad access configuration provided (key or wildcard)")
      case _ => Err("Bad access configuration provided (object)")
  }

  /** The first index whose decimal spelling is `token`. */
  function IndexOf(n: nat, token: string, from: nat): (r: Option<nat>)
    ensures r.Some? ==> from <= r.value < n && Strings.NatToString(r.value) == token
    ensures r.None? ==> forall i :: from <= i < n ==> Strings.NatToString(i) != token
    decreases n - from
  {
    if from >= n then None
    else if Strings.NatToString(from) == token then Some(from)
    else IndexOf(n, token, from + 1)
  }

  /** `accessConfig[token]` for a non-wildcard configuration (own properties only). */
  function Lookup(cfg: AccessConfig, token: string): Option<TokenAccess>
    requires !cfg.Wildcard?
  {
    match cfg
    case ByToken(tokens) => if token in tokens then Some(tokens[token]) else None
    case ByIndex(entries) =>
      match IndexOf(|entries|, token, 0)
      case Some(i) => Some(entries[i])
      case None => None
  }

  /** `topicAccessAllowedForToken`. */
  function TopicAccessAllowedForToken(cfg: AccessConfig, token: Option<string>, topic: Option<string>): (r: bool)
    ensures cfg.Wildcard? ==> r
    ensures !cfg.Wildcard? && !Truthy(token) ==> !r
    ensures !cfg.Wildcard? && Truthy(token) && Lookup(cfg, token.value).None? ==> !r
    ensures !cfg.Wildcard? && Truthy(token) && Lookup(cfg, token.value) == Some(AllTopics) ==> r
    ensures !cfg.Wildcard? && Truthy(token) && Lookup(cfg, token.value).Some? && Lookup(cfg, token.value).value.TopicList? ==>
      (r <==> topic.Some? && topic.value in Lookup(cfg, token.value).value.topics)
  {
    if cfg.Wildcard? then true
    else if !Truthy(token) then false
    else
      match Lookup(cfg, token.value)
      case None => false
      case Some(AllTopics) => true
      case Some(TopicList(topics)) => topic.Some? && topic.value in topics
  }

  /** `wildcardAccessAllowedForToken`. */
  function WildcardAccessAllowedForToken(cfg: AccessConfig, token: Option<string>): (r: bool)
    ensures r <==> cfg.Wildcard? || (Truthy(token) && Lookup(cfg, token.value) == Some(AllTopics))
  {
    if cfg.Wildcard? then true
    else if !Truthy(token) then false
    else
      match Lookup(cfg, token.value)
      case None => false
      case Some(AllTopics) => true
      case Some(TopicList(_)) => false
  }

  /** The part of an HTTP request the checks read. */
  datatype Request = Request(headers: Option<map<string, string>>)

  /** `req.headers ? req.headers.authorization : null`. */
  function ProvidedToken(req: Request): (r: Option<string>)
    ensures req.headers.None? ==> r.None?
    ensures req.headers.Some? && "authorization" in req.headers.value ==> r == Some(req.headers.value["authorization"])
    ensures req.headers.Some? && "authorization" !in req.headers.value ==> r.None?
  {
    if req.headers.Some? && "authorization" in req.headers.value then Some(req.headers.value["authorization"]) else None
  }

  function TopicAccessAllowedForRequest(cfg: AccessConfig, req: Request, topic: Option<string>): (r: bool)
    ensures r == TopicAccessAllowedForToken(cfg, ProvidedToken(req), topic)
    ensures req.headers.None? ==> (r <==> cfg.Wildcard?)
  {
    TopicAccessAllowedForToken(cfg, ProvidedToken(req), topic)
  }

  /** The topic argument is ignored. */
  function WildcardAccessAllowedForRequest(cfg: AccessConfig, req: Request, topic: Option<string>): (r: bool)
    ensures r == WildcardAccessAllowedForToken(cfg, ProvidedToken(req))
    ensures req.headers.None? ==> (r <==> cfg.Wildcard?)
  {
    WildcardAccessAllowedForToken(cfg, ProvidedToken(req))
  }

  /** The decisions read straight off an object configuration: a token
      passes the topic check exactly when it maps to "*" or to a list holding
      the topic, and passes the wildcard check exactly when it maps to "*". */
  lemma DecisionsFollowObjectConfig(fields: map<string, Json>, token: Option<string>, topic: Option<string>)
    requires Configure(Some(JObj(fields))).Ok? && |fields.Keys| > 0
    ensures
      var cfg := Configure(Some(JObj(fields))).value;
      && (TopicAccessAllowedForToken(cfg, token, topic) <==>
            Truthy(token) && token.value in fields &&
            (fields[token.value] == JStr(WILDCARD) || (topic.Some? && JStr(topic.value) in fields[token.value].items)))
      && (WildcardAccessAllowedForToken(cfg, token) <==>
            Truthy(token) && token.value in fields && fields[token.value] == JStr(WILDCARD))
  {
    var cfg := Configure(Some(JObj(fields))).value;
    assert cfg.ByToken?;
    if Truthy(token) && token.value in fields {
      var v := fields[token.value];
      assert ValidValue(v);
      if v != JStr(WILDCARD) && topic.Some? {
        var topics := Strs(v.items);
        assert cfg.tokens[token.value] == TopicList(topics);
        if topic.value in topics {
          var i :| 0 <= i < |topics| && topics[i] == topic.value;
          assert v.items[i] == JStr(topic.value);
        }
        if JStr(topic.value) in v.items {
          var i :| 0 <= i < |v.items| && v.items[i] == JStr(topic.value);
          assert topics[i] == topic.value;
        }
      }
    }
  }

  /** The decisions read straight off an array configuration, whose tokens
      are the decimal indices: a token passes the topic check exactly when it
      spells an index whose entry is "*" or a list holding the topic, and
      passes the wildcard check exactly when that entry is "*". */
  lemma DecisionsFollowArrayConfig(items: seq<Json>, token: Option<string>, topic: Option<string>)
    requires Configure(Some(JArr(items))).Ok? && |items| > 0
    ensures
      var cfg := Configure(Some(JArr(items))).value;
      && (TopicAccessAllowedForToken(cfg, token, topic) <==>
            Truthy(token) && (exists i :: 0 <= i < |items| && Strings.NatToString(i) == token.value
                               && (items[i] == JStr(WILDCARD) || (topic.Some? && JStr(topic.value) in items[i].items))))
      && (WildcardAccessAllowedForToken(cfg, token) <==>
            Truthy(token) && (exists i :: 0 <= i < |items| && Strings.NatToString(i) == token.value && items[i] == JStr(WILDCARD)))
  {
    var cfg := Configure(Some(JArr(items))).value;
    assert cfg.ByIndex?;
    if Truthy(token) {
      var found := IndexOf(|items|, token.value, 0);
      forall i | 0 <= i < |items| && Strings.NatToString(i) == token.value
        ensures found == Some(i)
      {
        Strings.NatToStringInjective(found.value, i);
      }
    }
  }

  /** An object configuration with a value that is neither "*" nor a list of
      strings is refused. */
  lemma BadValueRejected(fields: map<string, Json>, key: string)
    requires key in fields && !ValidValue(fields[key])
    ensures Configure(Some(JObj(fields))).Err?
  {
    assert !SwitchesToWildcard(Some(JObj(fields))) by {
      assert key in fields.Keys;
    }
  }
}
