/** The `/config/hook` HTTP routes: guard chains in front of the hook
    collection. The decisions `hookAccessAllowedForRequest` and
    `subscriptionsAllowedForRequest` are parameters. */
module HookRoutes {
  import opened Wrappers
  import opened Entities
  import HM = HookModel

  /** `name`, `subscriptions` and `endpoint` of `req.body || {}` are all truthy
      (an array is truthy even when empty). */
  predicate Complete(body: Option<Hook>)
  {
    body.Some? && Truthy(body.value.name) && body.value.subscriptions.Some? && Truthy(body.value.endpoint)
  }

  /** GET `/hook/:_id`. */
  method GetHook(hooks: HM.HookModel, id: string) returns (status: int, hook: Option<HM.StoredHook>)
    ensures status == 404 <==> forall k :: 0 <= k < |hooks.rows| ==> hooks.rows[k].hook.id != Some(id)
    ensures status == 404 ==> hook.None?
    ensures status != 404 ==> status == 200 && hook.Some? && hook.value in hooks.rows && hook.value.hook.id == Some(id)
  {
    hook := hooks.Get(id);
    if hook.Some? {
      return 200, hook;
    }
    return 404, None;
  }

  /** GET `/hook/name/:name`. */
  method GetHookForName(hooks: HM.HookModel, name: string) returns (status: int, hook: Option<HM.StoredHook>)
    ensures status == 404 <==> forall k :: 0 <= k < |hooks.rows| ==> hooks.rows[k].hook.name != Some(name)
    ensures status == 404 ==> hook.None?
    ensures status != 404 ==> status == 200 && hook.Some? && hook.value in hooks.rows && hook.value.hook.name == Some(name)
  {
    hook := hooks.GetForName(name);
    if hook.Some? {
      return 200, hook;
    }
    return 404, None;
  }

  /** POST `/hook`: 403 without hook access, 400 for an incomplete body, 403
      for subscriptions not allowed, 400 when the name is taken; otherwise
      `_id` is dropped, so the hook is inserted under a fresh id, and 200. */
  method PostHook(access: bool, body: Option<Hook>, subscriptionsAllowed: bool, hooks: HM.HookModel, freshId: string)
    returns (status: int, stored: Option<HM.StoredHook>)
    modifies hooks
    ensures !access ==> status == 403
    ensures access && !Complete(body) ==> status == 400
    ensures access && Complete(body) && !subscriptionsAllowed ==> status == 403
    ensures access && Complete(body) && subscriptionsAllowed
            && (exists k :: 0 <= k < |old(hooks.rows)| && old(hooks.rows)[k].hook.name == body.value.name) ==>
            status == 400
    ensures status != 200 ==> hooks.rows == old(hooks.rows) && stored.None?
    ensures status == 200 ==>
      && access && Complete(body) && subscriptionsAllowed
      && (forall k :: 0 <= k < |old(hooks.rows)| ==> old(hooks.rows)[k].hook.name != body.value.name)
      && stored == Some(HM.StoredHook(body.value.(id := Some(freshId)), 0))
      && hooks.rows == old(hooks.rows) + [stored.value]
    ensures access && Complete(body) && subscriptionsAllowed
            && (forall k :: 0 <= k < |old(hooks.rows)| ==> old(hooks.rows)[k].hook.name != body.value.name) ==>
            status == 200
  {
    if !access {
      return 403, None;
    }
    if !Complete(body) {
      return 400, None;
    }
    if !subscriptionsAllowed {
      return 403, None;
    }
    var existing := hooks.GetForName(body.value.name.value);
    if existing.Some? {
      return 400, None;
    }
    var hook := body.value.(id := None);
    var document := hooks.Upsert(hook, freshId);
    return 200, Some(document);
  }

  /** PUT `/hook`: the same guards without the name check, then the body,
      `_id` included, is upserted and 200. */
  method PutHook(access: bool, body: Option<Hook>, subscriptionsAllowed: bool, hooks: HM.HookModel, freshId: string)
    returns (status: int, stored: Option<HM.StoredHook>)
    modifies hooks
    ensures !access ==> status == 403
    ensures access && !Complete(body) ==> status == 400
    ensures access && Complete(body) && !subscriptionsAllowed ==> status == 403
    ensures status != 200 ==> hooks.rows == old(hooks.rows) && stored.None?
    ensures access && Complete(body) && subscriptionsAllowed ==>
      && status == 200
      && stored.Some? && (hooks.rows, stored.value) == HM.UpsertRows(old(hooks.rows), body.value, freshId)
  {
    if !access {
      return 403, None;
    }
    if !Complete(body) {
      return 400, None;
    }
    if !subscriptionsAllowed {
      return 403, None;
    }
    var document := hooks.Upsert(body.value, freshId);
    return 200, Some(document);
  }

  /** DELETE `/hook/:_id`. */
  method DeleteHook(access: bool, id: string, hooks: HM.HookModel) returns (status: int)
    modifies hooks
    ensures !access ==> status == 403 && hooks.rows == old(hooks.rows)
    ensures access ==> status == 204 && hooks.rows == HM.DeleteRows(old(hooks.rows), id)
  {
    if !access {
      return 403;
    }
    hooks.Delete(id);
    return 204;
  }

  /** A PUT of a complete body naming an existing hook, without `_id`,
      rewrites that hook in place instead of adding a second one. */
  lemma PutByNameRewrites(rows: seq<HM.StoredHook>, body: Hook, freshId: string, k: nat)
    requires Complete(Some(body)) && !Truthy(body.id)
    requires k < |rows| && rows[k].hook.name == body.name
    ensures |HM.UpsertRows(rows, body, freshId).0| == |rows|
    ensures HM.UpsertRows(rows, body, freshId).1.hook.name == body.name
  {
    assert HM.Matches(HM.QueryFor(body))(rows[k]);
  }
}
