/** The `/replay` HTTP routes: ordered guard chains in front of the replay
    handler, and the first-match routing of the DELETE routes. The access
    decision `replayAccessAllowedForRequest` is a parameter. */
module ReplayRoutes {
  import opened Wrappers
  import DocStore
  import RH = ReplayHandler

  /** The fields read from `req.body || {}`. */
  datatype ReplayBody = ReplayBody(topic: Option<string>, consumerGroup: Option<string>)

  function BodyTopic(body: Option<ReplayBody>): Option<string>
  {
    if body.Some? then body.value.topic else None
  }

  function BodyGroup(body: Option<ReplayBody>): Option<string>
  {
    if body.Some? then body.value.consumerGroup else None
  }

  /** POST `/replay`: 403, then 400 without a topic, 400 while this instance
      replays, 400 while any record exists for the topic, then 200 with the
      started replay or 500 when starting fails. */
  method PostReplay(access: bool, body: Option<ReplayBody>, handler: RH.ReplayHandler,
                    uuid: string, now: int, storeFails: bool)
    returns (status: int, started: Option<RH.Replay>)
    requires handler.Valid()
    modifies handler, handler.store
    ensures handler.Valid()
    ensures !access ==> status == 403
    ensures access && !Truthy(BodyTopic(body)) ==> status == 400
    ensures access && Truthy(BodyTopic(body)) && old(handler.mirror).Some? ==> status == 400
    ensures access && Truthy(BodyTopic(body)) && old(handler.mirror).None?
            && (exists k :: 0 <= k < |old(handler.store.rows)| && old(handler.store.rows)[k].topic == BodyTopic(body).value) ==>
            status == 400
    ensures status != 200 && status != 500 ==> unchanged(handler) && unchanged(handler.store) && started.None?
    ensures status == 200 || status == 500 ==>
      && access && Truthy(BodyTopic(body)) && old(handler.mirror).None?
      && (forall k :: 0 <= k < |old(handler.store.rows)| ==> old(handler.store.rows)[k].topic != BodyTopic(body).value)
    ensures status == 200 ==>
      && !storeFails && started.Some? && started.value.topic == BodyTopic(body).value
      && handler.mirror.Some? && handler.store.rows == RH.UpsertRows(old(handler.store.rows), started.value)
    ensures status == 500 ==> storeFails && handler.mirror.None? && started.None?
    ensures status == 500 ==> unchanged(handler.store) && handler.currentTargetTopic == BodyTopic(body)
    ensures status == 200 ==> handler.mirror == Some(RH.Mirror(started.value.topic, started.value.consumerGroup))
    ensures access && Truthy(BodyTopic(body)) && old(handler.mirror).None?
            && (forall k :: 0 <= k < |old(handler.store.rows)| ==> old(handler.store.rows)[k].topic != BodyTopic(body).value) ==>
            status == (if storeFails then 500 else 200)
  {
    started := None;
    if !access {
      return 403, None;
    }
    var topic, consumerGroup := BodyTopic(body), BodyGroup(body);
    if !Truthy(topic) {
      return 400, None;
    }
    var running := handler.IsCurrentlyRunning();
    if running {
      return 400, None;
    }
    var existingReplay := handler.IsBeingReplayedByAnyInstance(topic.value);
    if existingReplay {
      return 400, None;
    }
    var result := handler.StartReplay(topic.value, consumerGroup, uuid, now, storeFails);
    if result.Err? {
      return 500, None;
    }
    return 200, Some(result.value);
  }

  /** DELETE `/replay/:topic`: 403, then 400 unless this instance targets the
      topic, then 204 once stopped, or 500 when no mirror runs. */
  method DeleteReplayTopic(access: bool, topic: string, handler: RH.ReplayHandler) returns (status: int)
    requires handler.Valid()
    modifies handler, handler.store
    ensures handler.Valid()
    ensures !access ==> status == 403 && unchanged(handler) && unchanged(handler.store)
    ensures access && old(handler.currentTargetTopic) != Some(topic) ==>
      status == 400 && unchanged(handler) && unchanged(handler.store)
    ensures access && old(handler.currentTargetTopic) == Some(topic) ==>
      && (old(handler.mirror).Some? ==>
            status == 204 && handler.mirror.None? && handler.store.rows == RH.DeleteTopicRows(old(handler.store.rows), topic))
      && (old(handler.mirror).None? ==> status == 500 && unchanged(handler) && unchanged(handler.store))
  {
    if !access {
      return 403;
    }
    var deals := handler.DealsWithTopic(topic);
    if !deals {
      return 400;
    }
    var stopped := handler.StopReplay();
    if stopped.Err? {
      return 500;
    }
    return 204;
  }

  /** DELETE `/replay/flushall`. */
  method DeleteFlushAll(access: bool, handler: RH.ReplayHandler) returns (status: int)
    modifies handler, handler.store
    ensures !access ==> status == 403 && unchanged(handler) && unchanged(handler.store)
    ensures access ==> status == 204 && handler.store.rows == [] && handler.mirror.None? && handler.Valid()
  {
    if !access {
      return 403;
    }
    var _ := handler.FlushAll();
    return 204;
  }

  /** DELETE `/replay/flushone`. */
  method DeleteFlushOne(access: bool, handler: RH.ReplayHandler) returns (status: int)
    modifies handler, handler.store
    ensures !access ==> status == 403 && unchanged(handler) && unchanged(handler.store)
    ensures access ==>
      && status == 204 && handler.mirror.None? && handler.Valid()
      && handler.store.rows == RH.FlushOneRows(old(handler.store.rows), old(handler.currentTargetTopic), handler.instanceId)
  {
    if !access {
      return 403;
    }
    var _ := handler.FlushOne();
    return 204;
  }

  /** GET `/replay`: the store is reconciled, then 200 with this instance's record. */
  method GetReplay(handler: RH.ReplayHandler, now: int) returns (status: int, body: RH.CurrentReplay)
    requires handler.Valid()
    modifies handler.store
    ensures status == 200 && body.instanceId == handler.instanceId
    ensures handler.store.rows == RH.ReconcileRows(old(handler.store.rows), handler.instanceId, handler.mirror, now)
    ensures body.replay == DocStore.FindOne(handler.store.rows, RH.InstanceIs(handler.instanceId))
  {
    body := handler.GetCurrentReplay(now);
    status := 200;
  }

  // Routing of DELETE requests: Express tries the routes in registration
  // order and runs the first whose pattern matches the path.

  datatype Segment = Lit(text: string) | Param

  datatype DeleteHandler = StopTopic | FlushAll | FlushOne

  datatype Route = Route(pattern: seq<Segment>, handler: DeleteHandler)

  /** A parameter matches any non-empty segment, a literal only itself. */
  predicate PathMatches(pattern: seq<Segment>, path: seq<string>)
  {
    |pattern| == |path| &&
    forall i :: 0 <= i < |path| ==> (if pattern[i].Lit? then path[i] == pattern[i].text else path[i] != "")
  }

  function MatchesPath(path: seq<string>): Route -> bool
  {
    (r: Route) => PathMatches(r.pattern, path)
  }

  /** The handler of the first route matching `path`, if any. */
  function Dispatch(routes: seq<Route>, path: seq<string>): (r: Option<DeleteHandler>)
    ensures r.Some? <==> exists k :: 0 <= k < |routes| && PathMatches(routes[k].pattern, path)
  {
    match DocStore.FirstMatch(routes, MatchesPath(path))
    case Some(i) => Some(routes[i].handler)
    case None => None
  }

  /** The DELETE routes in the order they are registered. */
  const DELETE_ROUTES: seq<Route> := [
    Route([Lit("replay"), Param], StopTopic),
    Route([Lit("replay"), Lit("flushall")], FlushAll),
    Route([Lit("replay"), Lit("flushone")], FlushOne)]

  /** The same routes with the literal paths registered first. */
  const INTENDED_DELETE_ROUTES: seq<Route> := [
    Route([Lit("replay"), Lit("flushall")], FlushAll),
    Route([Lit("replay"), Lit("flushone")], FlushOne),
    Route([Lit("replay"), Param], StopTopic)]

  /** As registered, both flush paths reach the `:topic` handler, so neither
      flush handler can ever run. */
  lemma FlushPathsReachTopicHandler(path: seq<string>)
    ensures Dispatch(DELETE_ROUTES, ["replay", "flushall"]) == Some(StopTopic)
    ensures Dispatch(DELETE_ROUTES, ["replay", "flushone"]) == Some(StopTopic)
    ensures Dispatch(DELETE_ROUTES, path) != Some(FlushAll) && Dispatch(DELETE_ROUTES, path) != Some(FlushOne)
  {
    assert PathMatches(DELETE_ROUTES[0].pattern, ["replay", "flushall"]);
    assert PathMatches(DELETE_ROUTES[0].pattern, ["replay", "flushone"]);
    if PathMatches(DELETE_ROUTES[1].pattern, path) || PathMatches(DELETE_ROUTES[2].pattern, path) {
      assert PathMatches(DELETE_ROUTES[0].pattern, path);
      DocStore.FirstMatchAt(DELETE_ROUTES, MatchesPath(path), 0);
    }
  }

  /** With the literal routes first, each flush path reaches its handler and
      every other topic still reaches the stop handler. */
  lemma IntendedOrderReachesFlush(topic: string)
    requires topic != "" && topic != "flushall" && topic != "flushone"
    ensures Dispatch(INTENDED_DELETE_ROUTES, ["replay", "flushall"]) == Some(FlushAll)
    ensures Dispatch(INTENDED_DELETE_ROUTES, ["replay", "flushone"]) == Some(FlushOne)
    ensures Dispatch(INTENDED_DELETE_ROUTES, ["replay", topic]) == Some(StopTopic)
  {
    assert PathMatches(INTENDED_DELETE_ROUTES[0].pattern, ["replay", "flushall"]);
    DocStore.FirstMatchAt(INTENDED_DELETE_ROUTES, MatchesPath(["replay", "flushall"]), 0);
    assert INTENDED_DELETE_ROUTES[0].pattern[1] == Lit("flushall") && "flushone"[5] != "flushall"[5];
    assert ["replay", "flushone"][1] != INTENDED_DELETE_ROUTES[0].pattern[1].text;
    assert !PathMatches(INTENDED_DELETE_ROUTES[0].pattern, ["replay", "flushone"]);
    assert PathMatches(INTENDED_DELETE_ROUTES[1].pattern, ["replay", "flushone"]);
    DocStore.FirstMatchAt(INTENDED_DELETE_ROUTES, MatchesPath(["replay", "flushone"]), 1);
    assert !PathMatches(INTENDED_DELETE_ROUTES[0].pattern, ["replay", topic]);
    assert !PathMatches(INTENDED_DELETE_ROUTES[1].pattern, ["replay", topic]);
    assert PathMatches(INTENDED_DELETE_ROUTES[2].pattern, ["replay", topic]);
    DocStore.FirstMatchAt(INTENDED_DELETE_ROUTES, MatchesPath(["replay", topic]), 2);
  }
}
