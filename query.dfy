/**
  The query-builder calls the modelled code issues, as functions over a table
  (a map from primary key to row).
 */
module Query {
  import opened Results

  /** The rows a `where` clause selects. */
  function Where<K(!new), V>(rows: map<K, V>, keep: V -> bool): (r: map<K, V>)
    ensures forall k :: k in r <==> k in rows && keep(rows[k])
    ensures forall k :: k in r ==> r[k] == rows[k]
  {
    map k | k in rows && keep(rows[k]) :: rows[k]
  }

  /** `where(key, id)->first()`: the row under `key`, or null. */
  function Find<K, V>(rows: map<K, V>, key: K): (r: Option<V>)
    ensures r.Some? <==> key in rows
    ensures r.Some? ==> r.value == rows[key]
  {
    if key in rows then Some(rows[key]) else None
  }

  /** `where(key, id)->where(...)->first()`: the row under `key`, only when it also passes `keep`. */
  function FindWhere<K, V>(rows: map<K, V>, key: K, keep: V -> bool): (r: Option<V>)
    ensures r.Some? <==> key in rows && keep(rows[key])
    ensures r.Some? ==> r.value == rows[key]
  {
    if key in rows && keep(rows[key]) then Some(rows[key]) else None
  }

  /** `save()` of a loaded model: an UPDATE of the row under `key`; no row, no change. */
  function Update<K(!new), V>(rows: map<K, V>, key: K, change: V -> V): (r: map<K, V>)
    ensures r.Keys == rows.Keys
    ensures key in rows ==> r[key] == change(rows[key])
    ensures forall k :: k in rows && k != key ==> r[k] == rows[k]
  {
    if key in rows then rows[key := change(rows[key])] else rows
  }

  /** A bulk `where(...)->update(...)`: every matching row changes, no other row does. */
  function UpdateWhere<K(!new), V>(rows: map<K, V>, matches: V -> bool, change: V -> V): (r: map<K, V>)
    ensures r.Keys == rows.Keys
    ensures forall k :: k in rows && matches(rows[k]) ==> r[k] == change(rows[k])
    ensures forall k :: k in rows && !matches(rows[k]) ==> r[k] == rows[k]
  {
    map k | k in rows :: if matches(rows[k]) then change(rows[k]) else rows[k]
  }

  /** The number of rows a bulk update matches. */
  function CountWhere<K(!new), V>(rows: map<K, V>, matches: V -> bool): nat
  {
    |set k | k in rows && matches(rows[k])|
  }

  /** How many rows of the table hold the value `v`. */
  ghost function Occurrences<K(!new), V>(rows: map<K, V>, v: V): nat
  {
    |set k | k in rows && rows[k] == v|
  }

  /** A value occurs in a table exactly when some row holds it. */
  lemma OccurrencesPositive<K(!new), V>(rows: map<K, V>, v: V)
    ensures Occurrences(rows, v) > 0 <==> exists k :: k in rows && rows[k] == v
  {
    var holding := set k | k in rows && rows[k] == v;
    if exists k :: k in rows && rows[k] == v {
      var k :| k in rows && rows[k] == v;
      assert k in holding;
    } else {
      assert holding == {};
    }
  }

  /** Taking one row out of a table takes one occurrence of its value out. */
  lemma OccurrencesRemove<K(!new), V>(rows: map<K, V>, key: K, v: V)
    requires key in rows
    ensures Occurrences(rows, v) == Occurrences(rows - {key}, v) + (if rows[key] == v then 1 else 0)
  {
    var rest := rows - {key};
    var all := set k | k in rows && rows[k] == v;
    var others := set k | k in rest && rest[k] == v;
    if rows[key] == v {
      assert all == others + {key};
    } else {
      assert all == others;
    }
  }

  /** A `where` keeps every occurrence of a value it selects and none of one it rejects. */
  lemma OccurrencesWhere<K(!new), V>(rows: map<K, V>, keep: V -> bool, v: V)
    ensures Occurrences(Where(rows, keep), v) == if keep(v) then Occurrences(rows, v) else 0
  {
    var selected := Where(rows, keep);
    if keep(v) {
      assert (set k | k in selected && selected[k] == v) == (set k | k in rows && rows[k] == v);
    } else {
      assert (set k | k in selected && selected[k] == v) == {};
    }
  }

  /** Repeating an UPDATE whose change is idempotent changes nothing more. */
  lemma UpdateTwice<K(!new), V>(rows: map<K, V>, key: K, change: V -> V)
    requires forall v :: change(change(v)) == change(v)
    ensures Update(Update(rows, key, change), key, change) == Update(rows, key, change)
  {
  }

  /** Repeating a bulk update changes nothing more when the change is idempotent and keeps the
      rows it changes matching. */
  lemma UpdateWhereTwice<K(!new), V>(rows: map<K, V>, matches: V -> bool, change: V -> V)
    requires forall v :: matches(v) ==> matches(change(v)) && change(change(v)) == change(v)
    ensures UpdateWhere(UpdateWhere(rows, matches, change), matches, change)
         == UpdateWhere(rows, matches, change)
  {
    var once := UpdateWhere(rows, matches, change);
    var twice := UpdateWhere(once, matches, change);
    forall k | k in rows ensures twice[k] == once[k] {
      if matches(rows[k]) {
        assert matches(once[k]);
      }
    }
  }

  /**
    `where(keep)->latest(key)->first()`: the key of a selected row whose `key` column is
    greatest. Which of several rows with the same greatest value comes first is left to the
    database, so the choice here is arbitrary too.
   */
  ghost function LatestWhere<K(!new), V>(rows: map<K, V>, keep: V -> bool, key: V -> int): (r: Option<K>)
    ensures r.None? <==> forall k :: k in rows ==> !keep(rows[k])
    ensures r.Some? ==> r.value in rows && keep(rows[r.value])
    ensures r.Some? ==> forall k :: k in rows && keep(rows[k]) ==> key(rows[k]) <= key(rows[r.value])
    decreases rows.Keys
  {
    if rows == map[] then None
    else
      var k :| k in rows;
      var rest := LatestWhere(rows - {k}, keep, key);
      assert forall j :: j in rows && j != k ==> j in rows - {k} && (rows - {k})[j] == rows[j];
      if keep(rows[k]) && (rest.None? || key(rows[rest.value]) <= key(rows[k])) then Some(k)
      else rest
  }
}
