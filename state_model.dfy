/** The shared state store: a key-value collection with a unique index on
    `key`, written only for whitelisted keys. */
module StateModel {
  import opened Wrappers
  import DocStore

  /** A value of the `STATE_KEYS` object: the object mixes a boolean and a string. */
  datatype StateKey = BoolKey(b: bool) | StrKey(s: string)

  /** `STATE_KEYS`, as (property, value) pairs in declaration order. */
  const STATE_KEYS: seq<(string, StateKey)> := [("noModel", BoolKey(true)), ("ENABLE_METADATA_JOB", StrKey("enable_metadata_job"))]

  /** `Object.keys(obj).map((key) => obj[key])`. */
  function Values(entries: seq<(string, StateKey)>): (r: seq<StateKey>)
    ensures |r| == |entries|
    ensures forall i :: 0 <= i < |entries| ==> r[i] == entries[i].1
  {
    if entries == [] then [] else [entries[0].1] + Values(entries[1..])
  }

  function KnownStateKeys(): seq<StateKey>
  {
    Values(STATE_KEYS)
  }

  /** `KNOWN_STATE_KEYS` evaluates to `[true, "enable_metadata_job"]`. */
  lemma KnownStateKeysValue()
    ensures KnownStateKeys() == [BoolKey(true), StrKey("enable_metadata_job")]
  {
  }

  /** `KNOWN_STATE_KEYS.indexOf(key) !== -1` for a string key, under strict equality. */
  predicate IsKnown(key: string)
  {
    StrKey(key) in KnownStateKeys()
  }

  /** The only string key `set` accepts is "enable_metadata_job". */
  lemma OnlyKnownStringKey(key: string)
    ensures IsKnown(key) <==> key == "enable_metadata_job"
  {
    KnownStateKeysValue();
  }

  datatype StateRow = StateRow(key: string, val: string)

  function KeyIs(key: string): StateRow -> bool
  {
    (r: StateRow) => r.key == key
  }

  /** At most one row per key, as the unique index on `key` enforces. */
  predicate UniqueKeys(rows: seq<StateRow>)
  {
    forall i, j :: 0 <= i < j < |rows| ==> rows[i].key != rows[j].key
  }

  /** `get(key)`: the value of the row for `key`, or null. */
  function GetVal(rows: seq<StateRow>, key: string): (r: Option<string>)
    ensures r.None? <==> forall k :: 0 <= k < |rows| ==> rows[k].key != key
    ensures r.Some? ==> StateRow(key, r.value) in rows
  {
    match DocStore.FindOne(rows, KeyIs(key))
    case None => None
    case Some(row) => Some(row.val)
  }

  /** `set(key, val)`: throws for an unknown key, otherwise upserts `{key, val}`. */
  function SetRows(rows: seq<StateRow>, key: string, val: string): Result<seq<StateRow>>
  {
    if !IsKnown(key) then Err("Unknown shared state key: " + key)
    else Ok(DocStore.Upsert(rows, KeyIs(key), (r: StateRow) => r.(val := val), StateRow(key, val)).0)
  }

  /** `del(key)`: removes that key's row. */
  function DelRows(rows: seq<StateRow>, key: string): seq<StateRow>
  {
    DocStore.DeleteOne(rows, KeyIs(key))
  }

  /** An unknown key is refused before the store is touched. */
  lemma SetRefusesUnknown(rows: seq<StateRow>, key: string, val: string)
    ensures SetRows(rows, key, val).Err? <==> key != "enable_metadata_job"
  {
    OnlyKnownStringKey(key);
  }

  /** A known key ends up with exactly the value written, and the unique index holds. */
  lemma SetThenGet(rows: seq<StateRow>, key: string, val: string)
    requires UniqueKeys(rows) && SetRows(rows, key, val).Ok?
    ensures GetVal(SetRows(rows, key, val).value, key) == Some(val)
    ensures UniqueKeys(SetRows(rows, key, val).value)
  {
    var after := SetRows(rows, key, val).value;
    var m := DocStore.FirstMatch(rows, KeyIs(key));
    if m.Some? {
      assert after == rows[m.value := StateRow(key, val)];
      assert forall k :: 0 <= k < |after| && after[k].key == key ==> k == m.value;
      assert KeyIs(key)(after[m.value]);
      DocStore.FirstMatchAt(after, KeyIs(key), m.value);
    } else {
      assert after == rows + [StateRow(key, val)];
      assert forall k :: 0 <= k < |rows| ==> after[k] == rows[k];
      assert KeyIs(key)(after[|rows|]);
      DocStore.FirstMatchAt(after, KeyIs(key), |rows|);
    }
  }

  /** Every other key's value is unchanged by `set`. */
  lemma SetKeepsOtherKeys(rows: seq<StateRow>, key: string, val: string, other: string)
    requires SetRows(rows, key, val).Ok? && other != key
    ensures GetVal(SetRows(rows, key, val).value, other) == GetVal(rows, other)
  {
    var after := SetRows(rows, key, val).value;
    var m := DocStore.FirstMatch(rows, KeyIs(key));
    if m.Some? {
      assert |after| == |rows|;
      assert forall k :: 0 <= k < |rows| && k != m.value ==> after[k] == rows[k];
      assert after[m.value].key == key;
    } else {
      assert after == rows + [StateRow(key, val)];
      assert forall k :: 0 <= k < |rows| ==> after[k] == rows[k];
    }
    SameRowsForKey(rows, after, other);
  }

  /** Two collections that agree on every row of `key`, position by
      position, and add none past the end, answer `get(key)` alike. */
  lemma SameRowsForKey(rows: seq<StateRow>, after: seq<StateRow>, key: string)
    requires |rows| <= |after|
    requires forall k :: 0 <= k < |rows| ==> (rows[k].key == key <==> after[k].key == key)
    requires forall k :: 0 <= k < |rows| && rows[k].key == key ==> after[k] == rows[k]
    requires forall k :: |rows| <= k < |after| ==> after[k].key != key
    ensures GetVal(after, key) == GetVal(rows, key)
  {
    var fm := DocStore.FirstMatch(rows, KeyIs(key));
    if fm.Some? {
      DocStore.FirstMatchAt(after, KeyIs(key), fm.value);
    } else {
      assert forall k :: 0 <= k < |after| ==> !KeyIs(key)(after[k]);
    }
  }

  /** After `del`, a unique key reads as null and no other key is affected. */
  lemma DelRemovesKey(rows: seq<StateRow>, key: string, other: string)
    requires UniqueKeys(rows)
    ensures GetVal(DelRows(rows, key), key).None?
    ensures UniqueKeys(DelRows(rows, key))
    ensures other != key ==> GetVal(DelRows(rows, key), other) == GetVal(rows, other)
  {
    var m := DocStore.FirstMatch(rows, KeyIs(key));
    if m.Some? {
      var i := m.value;
      var after := DelRows(rows, key);
      RemovedAt(rows, i, after);
      assert UniqueKeys(after) by {
        forall a, b | 0 <= a < b < |after|
          ensures after[a].key != after[b].key
        {
          var a', b' := if a < i then a else a + 1, if b < i then b else b + 1;
          assert after[a] == rows[a'] && after[b] == rows[b'] && a' < b';
        }
      }
      assert forall k :: 0 <= k < |after| ==> after[k].key != key by {
        forall k | 0 <= k < |after|
          ensures after[k].key != key
        {
          if k < i {
            assert after[k] == rows[k];
          } else {
            assert after[k] == rows[k + 1];
          }
        }
      }
      if other != key {
        var fm := DocStore.FirstMatch(rows, KeyIs(other));
        if fm.Some? {
          var j := fm.value;
          var pos := if j < i then j else j - 1;
          assert after[pos] == rows[j];
          forall k | 0 <= k < pos
            ensures !KeyIs(other)(after[k])
          {
            assert after[k] == rows[if k < i then k else k + 1];
          }
          DocStore.FirstMatchAt(after, KeyIs(other), pos);
        } else {
          forall k | 0 <= k < |after|
            ensures !KeyIs(other)(after[k])
          {
            assert after[k] == rows[if k < i then k else k + 1];
          }
        }
      }
    }
  }

  /** The rows left once the row at `i` is removed, by position. */
  lemma RemovedAt<T>(rows: seq<T>, i: nat, after: seq<T>)
    requires i < |rows| && after == rows[..i] + rows[i + 1..]
    ensures |after| == |rows| - 1
    ensures forall k :: 0 <= k < |after| ==> after[k] == rows[if k < i then k else k + 1]
  {
  }

  class StateModel {
    var rows: seq<StateRow>

    /** The unique index on `key`. */
    predicate Valid()
      reads this
    {
      UniqueKeys(rows)
    }

    constructor()
      ensures rows == [] && Valid()
    {
      rows := [];
    }

    function List(): seq<StateRow>
      reads this
    {
      rows
    }

    method Get(key: string) returns (r: Option<string>)
      ensures r == GetVal(rows, key)
    {
      var result := DocStore.FindOne(rows, KeyIs(key));
      if result.Some? {
        return Some(result.value.val);
      }
      return None;
    }

    /** Answers the written value, or the error thrown for an unknown key. */
    method Set(key: string, val: string) returns (r: Result<string>)
      requires Valid()
      modifies this
      ensures Valid()
      ensures SetRows(old(rows), key, val).Err? ==> r.Err? && rows == old(rows)
      ensures SetRows(old(rows), key, val).Ok? ==> r == Ok(val) && rows == SetRows(old(rows), key, val).value
    {
      if StrKey(key) !in KnownStateKeys() {
        return Err("Unknown shared state key: " + key);
      }
      SetThenGet(rows, key, val);
      rows := DocStore.Upsert(rows, KeyIs(key), (row: StateRow) => row.(val := val), StateRow(key, val)).0;
      return Ok(val);
    }

    method Del(key: string)
      requires Valid()
      modifies this
      ensures Valid()
      ensures rows == DelRows(old(rows), key)
    {
      DelRemovesKey(rows, key, key);
      rows := DocStore.DeleteOne(rows, KeyIs(key));
    }

    method TruncateCollection()
      modifies this
      ensures rows == [] && Valid()
    {
      DocStore.DeleteAllEmpties(rows);
      rows := DocStore.DeleteMany(rows, DocStore.All);
    }
  }
}
