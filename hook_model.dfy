/** The hook collection. Documents carry an `_id` (always present once
    stored, represented as a string) and the version field `__v`. */
module HookModel {
  import opened Wrappers
  import opened Entities
  import DocStore

  /** A stored document: the hook (with `id` as its `_id`) and `__v`. */
  datatype StoredHook = StoredHook(hook: Hook, version: int)

  /** The three queries `upsert` can choose. */
  datatype Query = ById(id: string) | ByName(name: string) | Everything

  /** `_id` when truthy, else `name` when truthy, else `{}`. */
  function QueryFor(h: Hook): (q: Query)
    ensures Truthy(h.id) <==> q.ById?
    ensures q.ById? ==> q.id == h.id.value
    ensures q.ByName? <==> !Truthy(h.id) && Truthy(h.name)
    ensures q.ByName? ==> q.name == h.name.value
  {
    if Truthy(h.id) then ById(h.id.value)
    else if Truthy(h.name) then ByName(h.name.value)
    else Everything
  }

  function Matches(q: Query): StoredHook -> bool
  {
    (d: StoredHook) =>
      match q
      case ById(id) => d.hook.id == Some(id)
      case ByName(name) => d.hook.name == Some(name)
      case Everything => true
  }

  function Pick<T>(given: Option<T>, stored: Option<T>): Option<T>
  {
    if given.Some? then given else stored
  }

  /** The update: every field the request hook carries overwrites the stored
      one; `_id` is immutable and `__v` is left alone. */
  function Merge(h: Hook): StoredHook -> StoredHook
  {
    (d: StoredHook) => d.(hook := Hook(
      d.hook.id,
      Pick(h.name, d.hook.name),
      Pick(h.endpoint, d.hook.endpoint),
      Pick(h.authorizationHeader, d.hook.authorizationHeader),
      Pick(h.authorizationValue, d.hook.authorizationValue),
      h.disabled,
      Pick(h.subscriptions, d.hook.subscriptions),
      Pick(h.timestamp, d.hook.timestamp)))
  }

  /** The upserted document when nothing matches: the filter's `_id`, or a
      fresh one, and the hook's fields, at version 0. */
  function Inserted(h: Hook, freshId: string): StoredHook
  {
    var id := if QueryFor(h).ById? then QueryFor(h).id else freshId;
    StoredHook(h.(id := Some(id)), 0)
  }

  /** `upsert(hook)`: the new rows and the returned (new) document. */
  function UpsertRows(rows: seq<StoredHook>, h: Hook, freshId: string): (seq<StoredHook>, StoredHook)
  {
    DocStore.Upsert(rows, Matches(QueryFor(h)), Merge(h), Inserted(h, freshId))
  }

  /** With a truthy `_id`, the document with that id is the one written, and
      every document with another id is left in place. */
  lemma UpsertTargetsId(rows: seq<StoredHook>, h: Hook, freshId: string)
    requires Truthy(h.id)
    ensures UpsertRows(rows, h, freshId).1.hook.id == h.id
    ensures
      var after := UpsertRows(rows, h, freshId).0;
      && |rows| <= |after| <= |rows| + 1
      && forall k :: 0 <= k < |rows| && rows[k].hook.id != h.id ==> after[k] == rows[k]
  {
    var m := DocStore.FirstMatch(rows, Matches(QueryFor(h)));
    if m.Some? {
      assert Matches(ById(h.id.value))(rows[m.value]);
    }
  }

  /** Without a truthy `_id` but with a truthy name, the document with that name
      is the one written, and documents with other names are left in place. */
  lemma UpsertTargetsName(rows: seq<StoredHook>, h: Hook, freshId: string)
    requires !Truthy(h.id) && Truthy(h.name)
    ensures UpsertRows(rows, h, freshId).1.hook.name == h.name
    ensures
      var after := UpsertRows(rows, h, freshId).0;
      && |rows| <= |after| <= |rows| + 1
      && forall k :: 0 <= k < |rows| && rows[k].hook.name != h.name ==> after[k] == rows[k]
  {
    var m := DocStore.FirstMatch(rows, Matches(QueryFor(h)));
    if m.Some? {
      assert Matches(ByName(h.name.value))(rows[m.value]);
    }
  }

  /** With neither, the query `{}` overwrites the first stored hook, whatever
      it is; only an empty collection gets an insert. */
  lemma UpsertWithoutTargetOverwrites(rows: seq<StoredHook>, h: Hook, freshId: string)
    requires !Truthy(h.id) && !Truthy(h.name)
    ensures rows != [] ==> UpsertRows(rows, h, freshId).0 == rows[0 := Merge(h)(rows[0])]
    ensures rows == [] ==> UpsertRows(rows, h, freshId).0 == [StoredHook(h.(id := Some(freshId)), 0)]
  {
    if rows != [] {
      DocStore.FirstMatchAt(rows, Matches(Everything), 0);
    }
  }

  /** `delete(id)` removes the documents with that id and no others. */
  lemma DeleteRemovesId(rows: seq<StoredHook>, id: string)
    ensures forall d :: d in DeleteRows(rows, id) ==> d.hook.id != Some(id)
    ensures forall d :: d in rows && d.hook.id != Some(id) ==> multiset(DeleteRows(rows, id))[d] == multiset(rows)[d]
  {
  }

  function DeleteRows(rows: seq<StoredHook>, id: string): seq<StoredHook>
  {
    DocStore.DeleteMany(rows, Matches(ById(id)))
  }

  /** `list()`: every hook, in order, with `__v` removed. */
  function Stripped(rows: seq<StoredHook>): (r: seq<Hook>)
    ensures |r| == |rows|
    ensures forall k :: 0 <= k < |rows| ==> r[k] == rows[k].hook
  {
    if rows == [] then [] else [rows[0].hook] + Stripped(rows[1..])
  }

  class HookModel {
    var rows: seq<StoredHook>

    constructor()
      ensures rows == []
    {
      rows := [];
    }

    /** `get(id)`: a document with that `_id`, or null. */
    method Get(id: string) returns (r: Option<StoredHook>)
      ensures r.None? <==> forall k :: 0 <= k < |rows| ==> rows[k].hook.id != Some(id)
      ensures r.Some? ==> r.value in rows && r.value.hook.id == Some(id)
    {
      r := DocStore.FindOne(rows, Matches(ById(id)));
    }

    /** `getForName(name)`: a document with that name, or null. */
    method GetForName(name: string) returns (r: Option<StoredHook>)
      ensures r.None? <==> forall k :: 0 <= k < |rows| ==> rows[k].hook.name != Some(name)
      ensures r.Some? ==> r.value in rows && r.value.hook.name == Some(name)
    {
      r := DocStore.FindOne(rows, Matches(ByName(name)));
    }

    method List() returns (r: seq<Hook>)
      ensures r == Stripped(rows)
    {
      r := Stripped(rows);
    }

    /** `upsert(hook)`; `freshId` is the ObjectId the store would generate. */
    method Upsert(hook: Hook, freshId: string) returns (stored: StoredHook)
      modifies this
      ensures (rows, stored) == UpsertRows(old(rows), hook, freshId)
    {
      var query := QueryFor(hook);
      var (after, document) := DocStore.Upsert(rows, Matches(query), Merge(hook), Inserted(hook, freshId));
      rows := after;
      stored := document;
    }

    method Delete(id: string)
      modifies this
      ensures rows == DeleteRows(old(rows), id)
    {
      rows := DocStore.DeleteMany(rows, Matches(ById(id)));
    }

    method TruncateCollection()
      modifies this
      ensures rows == []
    {
      DocStore.DeleteAllEmpties(rows);
      rows := DocStore.DeleteMany(rows, DocStore.All);
    }
  }
}
