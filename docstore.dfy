/** The document-store operators the models call, on a collection held as
    a sequence of rows in natural (insertion) order. A filter is a
    predicate on rows; "first" means first in natural order. */
module DocStore {
  import opened Wrappers

  /** Position of the first row the filter matches. */
  function FirstMatch<T>(rows: seq<T>, f: T -> bool): (r: Option<nat>)
    ensures r.Some? ==> r.value < |rows| && f(rows[r.value])
    ensures r.Some? ==> forall k :: 0 <= k < r.value ==> !f(rows[k])
    ensures r.None? <==> forall k :: 0 <= k < |rows| ==> !f(rows[k])
    decreases |rows|
  {
    if rows == [] then None
    else if f(rows[0]) then Some(0)
    else
      match FirstMatch(rows[1..], f)
      case None => None
      case Some(i) => Some(i + 1)
  }

  /** The first match is characterised by its position. */
  lemma FirstMatchAt<T>(rows: seq<T>, f: T -> bool, i: nat)
    requires i < |rows| && f(rows[i])
    requires forall k :: 0 <= k < i ==> !f(rows[k])
    ensures FirstMatch(rows, f) == Some(i)
  {
    var m := FirstMatch(rows, f);
    assert m.Some?;
    assert !(m.value < i) && !(m.value > i);
  }

  /** `findOne(filter)`: the first matching row, or null. */
  function FindOne<T>(rows: seq<T>, f: T -> bool): (r: Option<T>)
    ensures r.Some? <==> exists k :: 0 <= k < |rows| && f(rows[k])
    ensures r.Some? ==> r.value in rows && f(r.value)
  {
    match FirstMatch(rows, f)
    case None => None
    case Some(i) => Some(rows[i])
  }

  /** `findOneAndUpdate(filter, update, {upsert: true, new: true})`: the
      first match is rewritten by `update`, otherwise `insert` is appended;
      the stored document is returned with the new rows. */
  function Upsert<T>(rows: seq<T>, f: T -> bool, update: T -> T, insert: T): (r: (seq<T>, T))
    ensures FirstMatch(rows, f).Some? ==>
      var i := FirstMatch(rows, f).value;
      r.0 == rows[i := update(rows[i])] && r.1 == update(rows[i])
    ensures FirstMatch(rows, f).None? ==> r.0 == rows + [insert] && r.1 == insert
  {
    match FirstMatch(rows, f)
    case Some(i) => (rows[i := update(rows[i])], update(rows[i]))
    case None => (rows + [insert], insert)
  }

  /** `findOneAndUpdate(filter, update, {new: true})` without upsert:
      the rewritten first match, or null and no change. */
  function UpdateOne<T>(rows: seq<T>, f: T -> bool, update: T -> T): (r: (seq<T>, Option<T>))
    ensures r.1.None? <==> (forall k :: 0 <= k < |rows| ==> !f(rows[k]))
    ensures r.1.None? ==> r.0 == rows
    ensures r.1.Some? ==>
      var i := FirstMatch(rows, f).value;
      r.0 == rows[i := update(rows[i])] && r.1.value == update(rows[i])
  {
    match FirstMatch(rows, f)
    case Some(i) => (rows[i := update(rows[i])], Some(update(rows[i])))
    case None => (rows, None)
  }

  /** `removeOne` / `deleteOne(filter)`: drops the first match, if any. */
  function DeleteOne<T>(rows: seq<T>, f: T -> bool): (r: seq<T>)
    ensures FirstMatch(rows, f).None? ==> r == rows
    ensures FirstMatch(rows, f).Some? ==>
      var i := FirstMatch(rows, f).value;
      r == rows[..i] + rows[i + 1..]
  {
    match FirstMatch(rows, f)
    case Some(i) => rows[..i] + rows[i + 1..]
    case None => rows
  }

  /** `deleteMany(filter)` / `remove(filter)`: keeps exactly the rows the
      filter does not match, in order. */
  function DeleteMany<T(==,!new)>(rows: seq<T>, f: T -> bool): (r: seq<T>)
    ensures forall x :: x in r <==> x in rows && !f(x)
    ensures forall x :: !f(x) ==> multiset(r)[x] == multiset(rows)[x]
    ensures |r| <= |rows|
    decreases |rows|
  {
    if rows == [] then []
    else
      var rest := DeleteMany(rows[1..], f);
      assert rows == [rows[0]] + rows[1..];
      if f(rows[0]) then rest else [rows[0]] + rest
  }

  /** Deleting with the same filter twice is deleting once. */
  lemma {:induction false} DeleteManyIdempotent<T(!new)>(rows: seq<T>, f: T -> bool)
    ensures DeleteMany(DeleteMany(rows, f), f) == DeleteMany(rows, f)
    decreases |rows|
  {
    if rows != [] {
      DeleteManyIdempotent(rows[1..], f);
      var rest := DeleteMany(rows[1..], f);
      if !f(rows[0]) {
        assert ([rows[0]] + rest)[1..] == rest;
      }
    }
  }

  /** `deleteMany` on a concatenation deletes from each part and keeps the
      parts in order; with `DeleteManySingleton` this fixes the order of the
      kept rows. */
  lemma {:induction false} DeleteManyAppend<T(!new)>(a: seq<T>, b: seq<T>, f: T -> bool)
    ensures DeleteMany(a + b, f) == DeleteMany(a, f) + DeleteMany(b, f)
    decreases |a|
  {
    if a == [] {
      assert a + b == b;
    } else {
      var x, rest := a[0], a[1..];
      var h := if f(x) then [] else [x];
      assert a == [x] + rest;
      assert a + b == [x] + (rest + b);
      calc {
        DeleteMany(a + b, f);
        { DeleteManyCons(x, rest + b, f); }
        h + DeleteMany(rest + b, f);
        { DeleteManyAppend(rest, b, f); }
        h + (DeleteMany(rest, f) + DeleteMany(b, f));
        (h + DeleteMany(rest, f)) + DeleteMany(b, f);
        { DeleteManyCons(x, rest, f); }
        DeleteMany(a, f) + DeleteMany(b, f);
      }
    }
  }

  /** Unfolding `deleteMany` at the head of a collection. */
  lemma DeleteManyCons<T(!new)>(x: T, rows: seq<T>, f: T -> bool)
    ensures DeleteMany([x] + rows, f) == (if f(x) then [] else [x]) + DeleteMany(rows, f)
  {
    assert ([x] + rows)[1..] == rows;
  }

  /** One row is kept exactly when the filter does not match it. */
  lemma DeleteManySingleton<T(!new)>(x: T, f: T -> bool)
    ensures DeleteMany([x], f) == (if f(x) then [] else [x])
  {
    assert [x][1..] == [];
  }

  /** A filter matching every row (`{}`), as used by the truncations. */
  function All<T>(x: T): bool { true }

  lemma DeleteAllEmpties<T(!new)>(rows: seq<T>)
    ensures DeleteMany(rows, All) == []
  {
  }
}
