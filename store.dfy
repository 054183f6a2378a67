/**
 * The persisted store (`db.json`): an insertion-ordered map from a module's cache key
 * (its path relative to its resolution root) to the record of its last refresh.
 * `Object.keys` on the loaded object gives the keys in insertion order, which is what
 * `bundle` and `clear` iterate.
 */
module Store {
  import opened Wrappers

  /** `{mtime, dependencies?}`; mtime in milliseconds, as `toISOString` round-trips it exactly. */
  datatype Record = Record(mtime: int, dependencies: Option<seq<string>>)

  datatype OrderedMap = OrderedMap(keys: seq<string>, records: map<string, Record>) {
    ghost predicate Valid() {
      && (forall i, j :: 0 <= i < j < |keys| ==> keys[i] != keys[j])
      && (forall k :: k in records <==> k in keys)
    }
  }

  type Db = m: OrderedMap | m.Valid() witness OrderedMap([], map[])

  const Empty: Db := OrderedMap([], map[])

  /** `db[key] = record`: an existing key keeps its position, a new key goes last. */
  function Put(db: Db, key: string, record: Record): (r: Db)
    ensures key in r.records && r.records[key] == record
    ensures forall k :: k != key ==> (k in r.records <==> k in db.records)
    ensures forall k :: k != key && k in db.records ==> r.records[k] == db.records[k]
    ensures key in db.records ==> r.keys == db.keys
    ensures key !in db.records ==> r.keys == db.keys + [key]
  {
    var keys := if key in db.records then db.keys else db.keys + [key];
    var m := OrderedMap(keys, db.records[key := record]);
    assert m.Valid() by {
      if key !in db.records {
        forall i, j | 0 <= i < j < |keys| ensures keys[i] != keys[j] {
          if j == |keys| - 1 {
            assert keys[i] in db.keys;
          }
        }
      }
    }
    m
  }

  /** The write never reorders: every old key is still there at the same position. */
  lemma PutKeepsOrder(db: Db, key: string, record: Record)
    ensures |db.keys| <= |Put(db, key, record).keys| <= |db.keys| + 1
    ensures Put(db, key, record).keys[..|db.keys|] == db.keys
  {
    var r := Put(db, key, record);
    if key in db.records {
      assert r.keys == db.keys;
    } else {
      assert r.keys == db.keys + [key];
    }
  }
}
