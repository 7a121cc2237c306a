/** An SQL table with a UNIQUE constraint, as a sequence of rows in rowid
    order. `key` extracts the columns the constraint covers. The statements
    the engine issues become functions from the old rows to the new ones:
    `INSERT OR IGNORE`, `INSERT OR REPLACE` (which deletes the clashing row
    and appends a new one, so the row moves to the end of rowid order),
    `UPDATE ... WHERE` on the key, and `INSERT ... ON CONFLICT DO UPDATE`
    (which updates the clashing row where it stands). */
module Table {
  import opened Common

  /** The UNIQUE constraint: no two rows share a key. */
  predicate UniqueBy<T(!new), K(==)>(key: T -> K, rows: seq<T>) {
    forall i, j :: 0 <= i < j < |rows| ==> key(rows[i]) != key(rows[j])
  }

  /** The first row whose key is `k`, if any. */
  function LookupBy<T(!new), K(==)>(key: T -> K, rows: seq<T>, k: K): (r: Option<T>)
    ensures r.None? <==> forall i :: 0 <= i < |rows| ==> key(rows[i]) != k
    ensures r.Some? ==> r.value in rows && key(r.value) == k
  {
    if rows == [] then None
    else if key(rows[0]) == k then Some(rows[0])
    else
      var r := LookupBy(key, rows[1..], k);
      assert forall i :: 1 <= i < |rows| ==> rows[i] == rows[1..][i - 1];
      r
  }

  /** Under the constraint, looking up a row's key finds that row. */
  lemma LookupUnique<T(!new), K>(key: T -> K, rows: seq<T>, x: T)
    requires UniqueBy(key, rows) && x in rows
    ensures LookupBy(key, rows, key(x)) == Some(x)
  {
    var j :| 0 <= j < |rows| && rows[j] == x;
    var r := LookupBy(key, rows, key(x));
    var i :| 0 <= i < |rows| && rows[i] == r.value;
    assert i == j;
  }

  /** A row appended after `rows` is found only when no earlier row has its
      key. */
  lemma {:induction false} LookupAppend<T(!new), K>(key: T -> K, rows: seq<T>, row: T, k: K)
    ensures LookupBy(key, rows + [row], k)
            == if LookupBy(key, rows, k).Some? then LookupBy(key, rows, k)
               else if key(row) == k then Some(row) else None
  {
    if rows != [] {
      assert (rows + [row])[1..] == rows[1..] + [row];
      LookupAppend(key, rows[1..], row, k);
    }
  }

  /** `DELETE ... WHERE key = k`. */
  function RemoveKey<T(!new), K(==)>(key: T -> K, rows: seq<T>, k: K): (r: seq<T>)
    ensures |r| <= |rows|
    ensures forall x :: x in r <==> x in rows && key(x) != k
    ensures LookupBy(key, r, k).None?
    ensures UniqueBy(key, rows) ==> UniqueBy(key, r)
  {
    if rows == [] then []
    else
      var rest := RemoveKey(key, rows[1..], k);
      assert forall x :: x in rows[1..] ==> x in rows;
      if key(rows[0]) == k then rest
      else
        assert UniqueBy(key, rows) ==> UniqueBy(key, [rows[0]] + rest) by {
          if UniqueBy(key, rows) {
            assert forall x :: x in rows[1..] ==> key(x) != key(rows[0]);
            ConsUnique(key, rows[0], rest);
          }
        }
        [rows[0]] + rest
  }

  /** Removing one key leaves the first row of every other key in place. */
  lemma {:induction false} LookupRemoveKey<T(!new), K>(key: T -> K, rows: seq<T>, k: K, k': K)
    requires k' != k
    ensures LookupBy(key, RemoveKey(key, rows, k), k') == LookupBy(key, rows, k')
  {
    if rows != [] {
      LookupRemoveKey(key, rows[1..], k, k');
      if key(rows[0]) != k {
        assert ([rows[0]] + RemoveKey(key, rows[1..], k))[1..] == RemoveKey(key, rows[1..], k);
      }
    }
  }

  /** `INSERT OR IGNORE`: the row is added only when its key is new. */
  function InsertOrIgnore<T(!new), K(==)>(key: T -> K, rows: seq<T>, row: T): (r: seq<T>)
    ensures UniqueBy(key, rows) ==> UniqueBy(key, r)
    ensures LookupBy(key, rows, key(row)).Some? ==> r == rows
    ensures LookupBy(key, rows, key(row)).None? ==> r == rows + [row]
  {
    if LookupBy(key, rows, key(row)).Some? then rows else rows + [row]
  }

  /** A row that is already present, or was inserted, is found afterwards;
      every other key is found as before; inserting twice is inserting
      once. */
  lemma InsertOrIgnoreLookup<T(!new), K>(key: T -> K, rows: seq<T>, row: T, k: K)
    ensures LookupBy(key, InsertOrIgnore(key, rows, row), key(row))
            == if LookupBy(key, rows, key(row)).Some? then LookupBy(key, rows, key(row)) else Some(row)
    ensures k != key(row) ==> LookupBy(key, InsertOrIgnore(key, rows, row), k) == LookupBy(key, rows, k)
    ensures InsertOrIgnore(key, InsertOrIgnore(key, rows, row), row) == InsertOrIgnore(key, rows, row)
  {
    LookupAppend(key, rows, row, key(row));
    LookupAppend(key, rows, row, k);
  }

  /** `INSERT OR REPLACE`: a clashing row is deleted and the new one is
      appended. */
  function InsertOrReplace<T(!new), K(==)>(key: T -> K, rows: seq<T>, row: T): (r: seq<T>)
    ensures UniqueBy(key, rows) ==> UniqueBy(key, r)
    ensures 1 <= |r| <= |rows| + 1 && r[|r| - 1] == row
    ensures forall x :: x in r <==> x == row || (x in rows && key(x) != key(row))
  {
    var kept := RemoveKey(key, rows, key(row));
    var r := kept + [row];
    assert forall i :: 0 <= i < |kept| ==> r[i] in kept;
    r
  }

  /** After `INSERT OR REPLACE` the key finds the new row and every other key
      finds what it found before. */
  lemma InsertOrReplaceLookup<T(!new), K>(key: T -> K, rows: seq<T>, row: T, k: K)
    ensures LookupBy(key, InsertOrReplace(key, rows, row), key(row)) == Some(row)
    ensures k != key(row) ==> LookupBy(key, InsertOrReplace(key, rows, row), k) == LookupBy(key, rows, k)
  {
    var kept := RemoveKey(key, rows, key(row));
    LookupAppend(key, kept, row, key(row));
    LookupAppend(key, kept, row, k);
    if k != key(row) {
      LookupRemoveKey(key, rows, key(row), k);
    }
  }

  /** `UPDATE ... WHERE key = k`: `f` rewrites every row with that key. */
  function UpdateWhere<T(!new), K(==)>(key: T -> K, rows: seq<T>, k: K, f: T -> T): (r: seq<T>)
    ensures |r| == |rows|
    ensures forall i :: 0 <= i < |rows| ==> r[i] == if key(rows[i]) == k then f(rows[i]) else rows[i]
  {
    if rows == [] then []
    else [if key(rows[0]) == k then f(rows[0]) else rows[0]] + UpdateWhere(key, rows[1..], k, f)
  }

  /** An update that keeps keys keeps the UNIQUE constraint, changes the row
      with key `k` by `f` and leaves the rows of every other key alone. */
  lemma {:induction false} UpdateWhereLookup<T(!new), K>(key: T -> K, rows: seq<T>, k: K, f: T -> T, k': K)
    requires forall x :: key(f(x)) == key(x)
    ensures UniqueBy(key, rows) ==> UniqueBy(key, UpdateWhere(key, rows, k, f))
    ensures LookupBy(key, UpdateWhere(key, rows, k, f), k')
            == match LookupBy(key, rows, k')
               case None => None
               case Some(x) => Some(if k' == k then f(x) else x)
  {
    var r := UpdateWhere(key, rows, k, f);
    assert forall i :: 0 <= i < |rows| ==> key(r[i]) == key(rows[i]);
    if rows != [] {
      UpdateWhereLookup(key, rows[1..], k, f, k');
      assert r[1..] == UpdateWhere(key, rows[1..], k, f);
    }
  }

  /** `INSERT ... ON CONFLICT DO UPDATE`: an existing row is rewritten by `f`
      where it stands, otherwise `row` is appended. */
  function Upsert<T(!new), K(==)>(key: T -> K, rows: seq<T>, row: T, f: T -> T): (r: seq<T>)
    ensures LookupBy(key, rows, key(row)).Some? ==> |r| == |rows|
    ensures LookupBy(key, rows, key(row)).None? ==> r == rows + [row]
  {
    if LookupBy(key, rows, key(row)).Some? then UpdateWhere(key, rows, key(row), f) else rows + [row]
  }

  /** After an upsert that keeps keys, the key finds the rewritten row (or
      the new one), every other key finds what it found before, and the
      UNIQUE constraint still holds. */
  lemma UpsertLookup<T(!new), K>(key: T -> K, rows: seq<T>, row: T, f: T -> T, k: K)
    requires forall x :: key(f(x)) == key(x)
    ensures UniqueBy(key, rows) ==> UniqueBy(key, Upsert(key, rows, row, f))
    ensures LookupBy(key, Upsert(key, rows, row, f), key(row))
            == match LookupBy(key, rows, key(row))
               case None => Some(row)
               case Some(x) => Some(f(x))
    ensures k != key(row) ==> LookupBy(key, Upsert(key, rows, row, f), k) == LookupBy(key, rows, k)
  {
    if LookupBy(key, rows, key(row)).Some? {
      UpdateWhereLookup(key, rows, key(row), f, key(row));
      UpdateWhereLookup(key, rows, key(row), f, k);
    } else {
      assert Upsert(key, rows, row, f) == InsertOrIgnore(key, rows, row);
      LookupAppend(key, rows, row, key(row));
      LookupAppend(key, rows, row, k);
    }
  }

  /** `DELETE ... WHERE NOT keep(row)` leaves the rows `keep` accepts, in
      rowid order (`Filter`), and deleting rows keeps the constraint. */
  lemma {:induction false} FilterUnique<T(!new), K>(key: T -> K, keep: T -> bool, rows: seq<T>)
    requires UniqueBy(key, rows)
    ensures UniqueBy(key, Filter(keep, rows))
    decreases |rows|
  {
    if rows != [] {
      var tail := rows[1..];
      assert UniqueBy(key, tail) by {
        forall i, j | 0 <= i < j < |tail| ensures key(tail[i]) != key(tail[j]) {
          assert tail[i] == rows[i + 1] && tail[j] == rows[j + 1];
        }
      }
      FilterUnique(key, keep, tail);
      var rest := Filter(keep, tail);
      if keep(rows[0]) {
        forall x | x in rest ensures key(x) != key(rows[0]) {
          var j :| 0 <= j < |tail| && tail[j] == x;
          assert rows[j + 1] == x;
        }
        ConsUnique(key, rows[0], rest);
      } else {
        assert Filter(keep, rows) == [] + rest;
        assert [] + rest == rest;
      }
    }
  }

  /** Dropping the first row keeps the constraint, and no later row shares
      the first row's key. */
  lemma UniqueTail<T(!new), K>(key: T -> K, rows: seq<T>)
    requires UniqueBy(key, rows) && rows != []
    ensures UniqueBy(key, rows[1..])
    ensures forall x :: x in rows[1..] ==> key(x) != key(rows[0])
  {
    var tail := rows[1..];
    forall i, j | 0 <= i < j < |tail| ensures key(tail[i]) != key(tail[j]) {
      assert tail[i] == rows[i + 1] && tail[j] == rows[j + 1];
    }
    forall x | x in tail ensures key(x) != key(rows[0]) {
      var j :| 0 <= j < |tail| && tail[j] == x;
      assert rows[j + 1] == x;
    }
  }

  lemma ConsUnique<T(!new), K>(key: T -> K, x: T, rest: seq<T>)
    requires UniqueBy(key, rest) && forall y :: y in rest ==> key(y) != key(x)
    ensures UniqueBy(key, [x] + rest)
  {
    var r := [x] + rest;
    forall i, j | 0 <= i < j < |r| ensures key(r[i]) != key(r[j]) {
      assert r[j] == rest[j - 1];
      if i > 0 {
        assert r[i] == rest[i - 1];
      } else {
        assert rest[j - 1] in rest;
      }
    }
  }
}
