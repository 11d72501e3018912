/**
 * An auto-increment keyed table (Dexie's `++id` primary key): rows by key, plus the key the
 * generator hands out next. Keys start at 1, so a present id is always truthy in JavaScript.
 */
module Tables {
  import opened Ordering

  type RowId = n: nat | 1 <= n witness 1

  datatype Table<R> = Table(rows: map<RowId, R>, nextId: RowId)

  function EmptyTable<R>(): Table<R>
  {
    Table(map[], 1)
  }

  /** Every stored key was handed out by the generator. */
  ghost predicate Issued<R>(t: Table<R>)
  {
    forall k :: k in t.rows ==> k < t.nextId
  }

  /** `table.add(row)`: stores `row` under a fresh key, the generator's next one. */
  function Add<R>(t: Table<R>, row: R): (r: Table<R>)
    ensures Issued(t) ==> t.nextId !in t.rows && Issued(r)
    ensures r.rows.Keys == t.rows.Keys + {t.nextId} && r.rows[t.nextId] == row
    ensures forall k :: k in t.rows && k != t.nextId ==> r.rows[k] == t.rows[k]
    ensures r.nextId == t.nextId + 1
  {
    Table(t.rows[t.nextId := row], t.nextId + 1)
  }

  /** `table.put(row)` with the row's own key `k`: inserts or overwrites. As in IndexedDB, an
      explicit key at or above the generator's moves the generator past it. */
  function Put<R>(t: Table<R>, k: RowId, row: R): (r: Table<R>)
    ensures Issued(t) ==> Issued(r)
    ensures r.rows.Keys == t.rows.Keys + {k} && r.rows[k] == row
    ensures forall j :: j in t.rows && j != k ==> r.rows[j] == t.rows[j]
    ensures k < t.nextId ==> r.nextId == t.nextId
  {
    Table(t.rows[k := row], if k < t.nextId then t.nextId else k + 1)
  }

  /** `table.update(k, changes)`: changes the stored row; a missing key is left alone. */
  function Update<R>(t: Table<R>, k: RowId, change: R -> R): (r: Table<R>)
    ensures k in t.rows ==> r.rows == t.rows[k := change(t.rows[k])] && r.nextId == t.nextId
    ensures k !in t.rows ==> r == t
  {
    if k in t.rows then Table(t.rows[k := change(t.rows[k])], t.nextId) else t
  }

  /** `table.delete(k)`: a missing key is not an error. */
  function Delete<R>(t: Table<R>, k: RowId): (r: Table<R>)
    ensures Issued(t) ==> Issued(r)
    ensures r.rows.Keys == t.rows.Keys - {k} && r.nextId == t.nextId
    ensures forall j :: j in r.rows ==> r.rows[j] == t.rows[j]
  {
    Table(t.rows - {k}, t.nextId)
  }

  /** `where(...).delete()`: removes every row satisfying `drop`. */
  function DeleteWhere<R>(t: Table<R>, drop: R -> bool): (r: Table<R>)
    ensures forall k :: k in r.rows <==> k in t.rows && !drop(t.rows[k])
    ensures forall k :: k in r.rows ==> r.rows[k] == t.rows[k]
    ensures r.nextId == t.nextId
  {
    Table(map k | k in t.rows && !drop(t.rows[k]) :: t.rows[k], t.nextId)
  }

  /** The keys of `rows` below `n`, in ascending order. */
  function KeysBelow<R>(rows: map<RowId, R>, n: nat): (ks: seq<RowId>)
    ensures Increasing(ks)
    ensures forall k :: k in ks <==> k in rows && k < n
    ensures forall i :: 0 <= i < |ks| ==> ks[i] < n
  {
    if n <= 1 then []
    else
      var prev := KeysBelow(rows, n - 1);
      var last: RowId := n - 1;
      if last in rows then prev + [last] else prev
  }

  /** Primary keys in the order a full scan of the table visits them. */
  function Keys<R>(t: Table<R>): (ks: seq<RowId>)
    ensures Increasing(ks)
    ensures Issued(t) ==> forall k :: k in ks <==> k in t.rows
  {
    KeysBelow(t.rows, t.nextId)
  }

  /** The keys of `ks` whose rows satisfy `keep`, in the order of `ks`: an index lookup such as
      `where({processId})`. */
  function Where<R>(ks: seq<RowId>, rows: map<RowId, R>, keep: R -> bool): (r: seq<RowId>)
    requires forall k :: k in ks ==> k in rows
    ensures |r| <= |ks|
    ensures forall k :: k in r <==> k in ks && keep(rows[k])
    ensures Increasing(ks) ==> Increasing(r)
  {
    if ks == [] then []
    else
      assert Increasing(ks) ==> Increasing(ks[1..]) by {
        if Increasing(ks) {
          forall i, j | 0 <= i < j < |ks[1..]| ensures ks[1..][i] < ks[1..][j] {
            assert ks[1..][i] == ks[i + 1] && ks[1..][j] == ks[j + 1];
          }
        }
      }
      var rest := Where(ks[1..], rows, keep);
      assert forall k :: k in ks <==> k == ks[0] || k in ks[1..];
      assert Increasing(ks) ==> forall k :: k in rest ==> ks[0] < k by {
        if Increasing(ks) {
          forall k | k in rest ensures ks[0] < k {
            var j :| 0 <= j < |ks[1..]| && ks[1..][j] == k;
            assert ks[j + 1] == k;
          }
        }
      }
      if keep(rows[ks[0]]) then
        assert Increasing(ks) ==> Increasing([ks[0]] + rest) by {
          if Increasing(ks) {
            forall i, j | 0 <= i < j < |rest| + 1 ensures ([ks[0]] + rest)[i] < ([ks[0]] + rest)[j] {
              assert ([ks[0]] + rest)[j] == rest[j - 1] && rest[j - 1] in rest;
            }
          }
        }
        [ks[0]] + rest
      else rest
  }

  /** The rows stored under `ks`, in the order of `ks`. */
  function RowsAt<R>(rows: map<RowId, R>, ks: seq<RowId>): (r: seq<R>)
    requires forall k :: k in ks ==> k in rows
    ensures |r| == |ks|
    ensures forall i :: 0 <= i < |ks| ==> r[i] == rows[ks[i]]
  {
    seq(|ks|, i requires 0 <= i < |ks| => rows[ks[i]])
  }
}
