/** The lease lock: a collection of rows `{name, instanceId, timestamp}`
    where `timestamp` is the lease expiry in milliseconds. Several instances
    share one collection; each updates it through conditional
    find-and-update, remove and delete operations. */
module LockModel {
  import opened Wrappers
  import DocStore

  datatype LockRow = LockRow(name: string, instanceId: string, timestamp: int)

  /** The lease `getLock` and `extendLock` use when the caller gives none. */
  const DEFAULT_LEASE_MS: int := 25000

  /** A JavaScript default parameter: applied only when the argument is undefined. */
  function Lease(timeout: Option<int>): (r: int)
    ensures timeout.None? ==> r == 25000
    ensures timeout.Some? ==> r == timeout.value
  {
    if timeout.Some? then timeout.value else DEFAULT_LEASE_MS
  }

  /** The `getLock` filter `{name, timestamp: {$lte: now}}`. */
  function Expired(name: string, now: int): LockRow -> bool
  {
    (r: LockRow) => r.name == name && r.timestamp <= now
  }

  /** The extend/remove filter `{name, instanceId, timestamp: {$gte: now}}`. */
  function HeldBy(name: string, self: string, now: int): LockRow -> bool
  {
    (r: LockRow) => r.name == name && r.instanceId == self && r.timestamp >= now
  }

  /** The `getLock` update `{instanceId: self, timestamp: expiry}`. */
  function Take(self: string, expiry: int): LockRow -> LockRow
  {
    (r: LockRow) => r.(instanceId := self, timestamp := expiry)
  }

  /** The intended `extendLock` update: the expiry grows by `extendFor`. */
  function Prolong(extendFor: int): LockRow -> LockRow
  {
    (r: LockRow) => r.(timestamp := r.timestamp + extendFor)
  }

  /** `getLock` on the collection as indexed in the source (no unique index):
      the first expired row of `name` is taken over, otherwise a row is
      inserted from the filter's equality field and the update; the answer
      is whether the returned row's holder is `self`. */
  function GetLockResult(rows: seq<LockRow>, self: string, name: string, now: int, lease: int): (seq<LockRow>, bool)
  {
    var (after, lock) := DocStore.Upsert(rows, Expired(name, now), Take(self, now + lease), LockRow(name, self, now + lease));
    (after, lock.instanceId == self)
  }

  /** `extendLock`: the first row of `name` held by `self` and not yet expired
      is prolonged; without one nothing changes and the answer is false. */
  function ExtendLockResult(rows: seq<LockRow>, self: string, name: string, now: int, extendFor: int): (seq<LockRow>, bool)
  {
    var (after, lock) := DocStore.UpdateOne(rows, HeldBy(name, self, now), Prolong(extendFor));
    (after, lock.Some?)
  }

  /** `removeLock`: drops the first row of `name` held by `self` and not yet expired. */
  function RemoveLockResult(rows: seq<LockRow>, self: string, name: string, now: int): seq<LockRow>
  {
    DocStore.DeleteOne(rows, HeldBy(name, self, now))
  }

  function Named(name: string): LockRow -> bool
  {
    (r: LockRow) => r.name == name
  }

  /** `delete(name)`: removes every row of that name. */
  function DeleteResult(rows: seq<LockRow>, name: string): seq<LockRow>
  {
    DocStore.DeleteMany(rows, Named(name))
  }

  /** A row of `name` whose lease is still running at `now`, held by `holder`. */
  predicate LiveHolder(rows: seq<LockRow>, name: string, holder: string, now: int)
  {
    exists k :: 0 <= k < |rows| && rows[k].name == name && rows[k].instanceId == holder && rows[k].timestamp > now
  }

  /** As written, `getLock` answers true on every call: the row it returns
      was just written with `instanceId: self`. The caller then holds a fresh
      lease row, and only expired rows of `name` were touched. */
  lemma GetLockAlwaysHits(rows: seq<LockRow>, self: string, name: string, now: int, lease: int)
    ensures GetLockResult(rows, self, name, now, lease).1
    ensures LockRow(name, self, now + lease) in GetLockResult(rows, self, name, now, lease).0
    ensures
      var after := GetLockResult(rows, self, name, now, lease).0;
      && |rows| <= |after| <= |rows| + 1
      && forall k :: 0 <= k < |rows| ==> after[k] == rows[k] || (Expired(name, now)(rows[k]) && after[k] == LockRow(name, self, now + lease))
  {
    var m := DocStore.FirstMatch(rows, Expired(name, now));
    if m.Some? {
      assert GetLockResult(rows, self, name, now, lease).0[m.value] == LockRow(name, self, now + lease);
    } else {
      var after := GetLockResult(rows, self, name, now, lease).0;
      assert after[|rows|] == LockRow(name, self, now + lease);
    }
  }

  /** Mutual exclusion fails: while `other` holds a live lease on `name` and
      no row of `name` has expired, `getLock` for `self` still answers true
      and adds a second live row, so both instances hold the lock. */
  lemma SecondHolderAlsoHits(rows: seq<LockRow>, other: string, self: string, name: string, now: int, lease: int)
    requires LiveHolder(rows, name, other, now)
    requires forall k :: 0 <= k < |rows| ==> !Expired(name, now)(rows[k])
    requires lease > 0
    ensures GetLockResult(rows, self, name, now, lease).1
    ensures LiveHolder(GetLockResult(rows, self, name, now, lease).0, name, other, now)
    ensures LiveHolder(GetLockResult(rows, self, name, now, lease).0, name, self, now)
  {
    var after := GetLockResult(rows, self, name, now, lease).0;
    assert after == rows + [LockRow(name, self, now + lease)];
    var k :| 0 <= k < |rows| && rows[k].name == name && rows[k].instanceId == other && rows[k].timestamp > now;
    assert after[k] == rows[k];
    assert after[|rows|] == LockRow(name, self, now + lease);
  }

  /** The same, from an empty collection: instance "a" locks at 0, instance
      "b" locks at 1 with the default lease, and both are told they hold it. */
  lemma TwoHoldersExample()
    ensures
      var (first, hitA) := GetLockResult([], "a", "job", 0, DEFAULT_LEASE_MS);
      var (second, hitB) := GetLockResult(first, "b", "job", 1, DEFAULT_LEASE_MS);
      && hitA && hitB
      && LiveHolder(second, "job", "a", 1) && LiveHolder(second, "job", "b", 1)
  {
    var first := GetLockResult([], "a", "job", 0, DEFAULT_LEASE_MS).0;
    assert first == [LockRow("job", "a", 25000)];
    assert first[0].timestamp > 1;
    SecondHolderAlsoHits(first, "a", "b", "job", 1, DEFAULT_LEASE_MS);
  }

  /** At `now == timestamp` the row is both expired for everybody's
      `getLock` and still held for its holder's extend and remove. */
  lemma BoundaryMatchesBoth(r: LockRow, now: int)
    requires r.timestamp == now
    ensures Expired(r.name, now)(r)
    ensures HeldBy(r.name, r.instanceId, now)(r)
  {
  }

  /** `extendLock` succeeds exactly when `self` holds a row of `name` whose
      lease has not expired; a miss changes nothing, a hit prolongs that row. */
  lemma ExtendLockHitIffHeld(rows: seq<LockRow>, self: string, name: string, now: int, extendFor: int)
    ensures
      var (after, hit) := ExtendLockResult(rows, self, name, now, extendFor);
      && (hit <==> exists k :: 0 <= k < |rows| && rows[k].name == name && rows[k].instanceId == self && rows[k].timestamp >= now)
      && (!hit ==> after == rows)
      && (hit ==> exists k :: 0 <= k < |rows| && HeldBy(name, self, now)(rows[k])
                   && after == rows[k := rows[k].(timestamp := rows[k].timestamp + extendFor)])
  {
    var m := DocStore.FirstMatch(rows, HeldBy(name, self, now));
    if m.Some? {
      assert HeldBy(name, self, now)(rows[m.value]);
    } else {
      assert forall k :: 0 <= k < |rows| ==> !HeldBy(name, self, now)(rows[k]);
    }
  }

  /** `removeLock` drops at most one row, and only one held by `self`;
      rows of other holders and expired rows stay in place. */
  lemma RemoveLockTouchesOnlyOwnLiveRow(rows: seq<LockRow>, self: string, name: string, now: int)
    ensures
      var after := RemoveLockResult(rows, self, name, now);
      && |rows| - 1 <= |after| <= |rows|
      && multiset(after) <= multiset(rows)
      && forall x :: x in rows && !HeldBy(name, self, now)(x) ==> multiset(after)[x] == multiset(rows)[x]
  {
    var m := DocStore.FirstMatch(rows, HeldBy(name, self, now));
    if m.Some? {
      var i := m.value;
      assert rows == rows[..i] + [rows[i]] + rows[i + 1..];
      assert multiset(rows) == multiset(RemoveLockResult(rows, self, name, now)) + multiset{rows[i]};
    }
  }

  /** `delete(name)` leaves no row of `name` and keeps every other row. */
  lemma DeleteRemovesName(rows: seq<LockRow>, name: string)
    ensures forall x :: x in DeleteResult(rows, name) ==> x.name != name
    ensures forall x :: x in rows && x.name != name ==> multiset(DeleteResult(rows, name))[x] == multiset(rows)[x]
  {
  }

  // The store as evidently intended: a unique index on `name`, so an
  // upsert that finds no expired row but collides with a live one fails.

  /** At most one row per name. */
  predicate UniqueNames(rows: seq<LockRow>)
  {
    forall i, j :: 0 <= i < j < |rows| ==> rows[i].name != rows[j].name
  }

  function HasName(rows: seq<LockRow>, name: string): bool
  {
    exists k :: 0 <= k < |rows| && rows[k].name == name
  }

  /** `getLock` against a unique index on `name`: the duplicate-key error
      surfaces as a miss and leaves the collection unchanged. */
  function GetLockUnique(rows: seq<LockRow>, self: string, name: string, now: int, lease: int): (seq<LockRow>, bool)
  {
    if DocStore.FirstMatch(rows, Expired(name, now)).None? && HasName(rows, name) then (rows, false)
    else GetLockResult(rows, self, name, now, lease)
  }

  /** The unique index holds across every operation of the model. */
  lemma {:induction false} GetLockUniqueKeepsUnique(rows: seq<LockRow>, self: string, name: string, now: int, lease: int)
    requires UniqueNames(rows)
    ensures UniqueNames(GetLockUnique(rows, self, name, now, lease).0)
  {
    var m := DocStore.FirstMatch(rows, Expired(name, now));
    var after := GetLockUnique(rows, self, name, now, lease).0;
    if m.Some? {
      assert after == rows[m.value := LockRow(name, self, now + lease)];
      assert forall k :: 0 <= k < |rows| ==> after[k].name == rows[k].name;
    } else if !HasName(rows, name) {
      assert after == rows + [LockRow(name, self, now + lease)];
      assert forall k :: 0 <= k < |rows| ==> after[k] == rows[k] && rows[k].name != name;
    }
  }

  lemma ExtendLockKeepsUnique(rows: seq<LockRow>, self: string, name: string, now: int, extendFor: int)
    requires UniqueNames(rows)
    ensures UniqueNames(ExtendLockResult(rows, self, name, now, extendFor).0)
  {
    var after := ExtendLockResult(rows, self, name, now, extendFor).0;
    assert forall k :: 0 <= k < |rows| ==> after[k].name == rows[k].name;
  }

  lemma RemoveLockKeepsUnique(rows: seq<LockRow>, self: string, name: string, now: int)
    requires UniqueNames(rows)
    ensures UniqueNames(RemoveLockResult(rows, self, name, now))
  {
    var m := DocStore.FirstMatch(rows, HeldBy(name, self, now));
    if m.Some? {
      var i := m.value;
      var after := RemoveLockResult(rows, self, name, now);
      assert forall k :: 0 <= k < |after| ==> after[k] == (if k < i then rows[k] else rows[k + 1]);
    }
  }

  /** Under the unique index, a granted lease excludes every other instance
      until it expires: `other`'s `getLock` at any earlier time misses and
      changes nothing. */
  lemma MutualExclusionUnique(rows: seq<LockRow>, self: string, other: string, name: string,
                              now: int, lease: int, later: int, otherLease: int)
    requires UniqueNames(rows)
    requires GetLockUnique(rows, self, name, now, lease).1
    requires later < now + lease
    ensures
      var held := GetLockUnique(rows, self, name, now, lease).0;
      GetLockUnique(held, other, name, later, otherLease) == (held, false)
  {
    var held := GetLockUnique(rows, self, name, now, lease).0;
    GetLockUniqueKeepsUnique(rows, self, name, now, lease);
    GetLockAlwaysHits(rows, self, name, now, lease);
    assert LockRow(name, self, now + lease) in held;
    var k :| 0 <= k < |held| && held[k] == LockRow(name, self, now + lease);
    assert HasName(held, name);
    assert forall j :: 0 <= j < |held| && held[j].name == name ==> j == k;
    assert DocStore.FirstMatch(held, Expired(name, later)).None?;
  }

  /** The shared collection. */
  class LockCollection {
    var rows: seq<LockRow>

    constructor()
      ensures rows == []
    {
      rows := [];
    }
  }

  /** One instance's view of the lock collection. */
  class LockModel {
    const instanceId: string
    const collection: LockCollection

    /** `instanceId` is a fresh uuid in the source; here it is given. */
    constructor(instanceId: string, collection: LockCollection)
      ensures this.instanceId == instanceId && this.collection == collection
    {
      this.instanceId := instanceId;
      this.collection := collection;
    }

    method GetLock(name: string, now: int, timeout: Option<int>) returns (hit: bool)
      modifies collection
      ensures (collection.rows, hit) == GetLockResult(old(collection.rows), instanceId, name, now, Lease(timeout))
    {
      var lease := Lease(timeout);
      var (after, lock) := DocStore.Upsert(collection.rows, Expired(name, now), Take(instanceId, now + lease), LockRow(name, instanceId, now + lease));
      collection.rows := after;
      hit := lock.instanceId == instanceId;
    }

    method ExtendLock(name: string, now: int, extendFor: Option<int>) returns (hit: bool)
      modifies collection
      ensures (collection.rows, hit) == ExtendLockResult(old(collection.rows), instanceId, name, now, Lease(extendFor))
    {
      var (after, lock) := DocStore.UpdateOne(collection.rows, HeldBy(name, instanceId, now), Prolong(Lease(extendFor)));
      collection.rows := after;
      hit := lock.Some?;
    }

    method RemoveLock(name: string, now: int)
      modifies collection
      ensures collection.rows == RemoveLockResult(old(collection.rows), instanceId, name, now)
    {
      collection.rows := DocStore.DeleteOne(collection.rows, HeldBy(name, instanceId, now));
    }

    method Delete(name: string)
      modifies collection
      ensures collection.rows == DeleteResult(old(collection.rows), name)
    {
      collection.rows := DocStore.DeleteMany(collection.rows, Named(name));
    }

    method TruncateCollection()
      modifies collection
      ensures collection.rows == []
    {
      collection.rows := DocStore.DeleteMany(collection.rows, DocStore.All);
      DocStore.DeleteAllEmpties(old(collection.rows));
    }
  }
}
