/**
 * The editor's transactions over the local database: the process listing, loading a process's
 * steps, saving the step list (upsert, then prune), and the cascade delete.
 */
module Persistence {
  import opened Wrappers
  import opened Ordering
  import opened Tables
  import opened Records

  /* ---------------- The process listing ---------------- */

  /** Newest `updatedAt` first; among equal timestamps the larger key first, which is the order
      of a reversed scan of the `updatedAt` index. */
  function ListingKey(t: Table<ProcessRow>): RowId -> Key
  {
    k => Key(-(if k in t.rows then t.rows[k].updatedAt else 0), -k)
  }

  /** The stored keys below `n` in listing order, each inserted in turn as a scan of the keys
      meets it. */
  function ListedKeysBelow(t: Table<ProcessRow>, n: nat): seq<RowId>
  {
    if n <= 1 then []
    else
      var prev := ListedKeysBelow(t, n - 1);
      var last: RowId := n - 1;
      if last in t.rows then Insert(last, prev, ListingKey(t)) else prev
  }

  /** Inserting a new key into a list without duplicates keeps it without duplicates and adds
      exactly that key. */
  lemma InsertNew(x: RowId, prev: seq<RowId>, key: RowId -> Key)
    requires NoDup(prev) && x !in prev
    ensures var ks := Insert(x, prev, key);
      NoDup(ks) && forall k :: k in ks <==> k in prev || k == x
  {
    var ks := Insert(x, prev, key);
    var appended := prev + [x];
    assert NoDup(appended) by {
      forall i, j | 0 <= i < |appended| && 0 <= j < |appended| && i != j ensures appended[i] != appended[j] {
        if i < |prev| && j < |prev| {
        } else if i < |prev| {
          assert prev[i] in prev;
        } else {
          assert prev[j] in prev;
        }
      }
    }
    assert multiset(appended) == multiset(ks);
    NoDupPermutation(appended, ks);
    forall k ensures k in ks <==> k in prev || k == x {
      assert k in ks <==> k in multiset(ks);
      assert k in appended <==> k in multiset(appended);
    }
  }

  /** The keys listed are exactly the stored keys below `n`, once each, in listing order. */
  lemma {:induction false} ListedKeysBelowSpec(t: Table<ProcessRow>, n: nat)
    ensures var ks := ListedKeysBelow(t, n);
      && (forall k :: k in ks <==> k in t.rows && k < n)
      && NoDup(ks) && SortedBy(ks, ListingKey(t))
      && (t.rows == map[] ==> ks == [])
  {
    if n > 1 {
      ListedKeysBelowSpec(t, n - 1);
      var last: RowId := n - 1;
      if last in t.rows {
        InsertNew(last, ListedKeysBelow(t, n - 1), ListingKey(t));
      }
    }
  }

  /** The stored keys in listing order. */
  function ListingKeys(t: Table<ProcessRow>): seq<RowId>
  {
    ListedKeysBelow(t, t.nextId)
  }

  /** `processes.orderBy('updatedAt').reverse().toArray()`. */
  function Listing(t: Table<ProcessRow>): (r: seq<ProcessRow>)
    ensures |r| == |ListingKeys(t)|
    ensures forall i :: 0 <= i < |r| ==> ListingKeys(t)[i] in t.rows && r[i] == t.rows[ListingKeys(t)[i]]
  {
    ListedKeysBelowSpec(t, t.nextId);
    RowsAt(t.rows, ListingKeys(t))
  }

  /** Every entry of the listing is a stored process, and no process is listed twice. */
  lemma ListingRowsStored(t: Table<ProcessRow>)
    requires ProcessTableOk(t)
    ensures var r := Listing(t);
      forall i :: 0 <= i < |r| ==> r[i].id.Some? && r[i].id.value in t.rows && t.rows[r[i].id.value] == r[i]
    ensures var r := Listing(t);
      forall i, j :: 0 <= i < |r| && 0 <= j < |r| && i != j ==> r[i].id != r[j].id
  {
    ListedKeysBelowSpec(t, t.nextId);
    var ks := ListingKeys(t);
    var r := Listing(t);
    forall i, j | 0 <= i < |r| && 0 <= j < |r| && i != j ensures r[i].id != r[j].id {
      assert r[i].id == Some(ks[i]) && r[j].id == Some(ks[j]);
    }
  }

  /** Every stored process is listed; the listing is empty only when the table is. */
  lemma ListingComplete(t: Table<ProcessRow>)
    requires Issued(t)
    ensures forall k :: k in t.rows ==> t.rows[k] in Listing(t)
    ensures Listing(t) == [] <==> t.rows == map[]
  {
    ListedKeysBelowSpec(t, t.nextId);
    var ks := ListingKeys(t);
    var r := Listing(t);
    forall k | k in t.rows ensures t.rows[k] in r {
      var i :| 0 <= i < |ks| && ks[i] == k;
      assert r[i] == t.rows[k];
    }
    if t.rows != map[] {
      var k :| k in t.rows;
      assert t.rows[k] in r;
    }
  }

  /** The listing runs from the most recently updated process to the least; its head carries the
      greatest `updatedAt` of the table. */
  lemma ListingNewestFirst(t: Table<ProcessRow>)
    requires Issued(t)
    ensures var r := Listing(t); forall i, j :: 0 <= i < j < |r| ==> r[i].updatedAt >= r[j].updatedAt
    ensures var r := Listing(t); r != [] ==> forall k :: k in t.rows ==> t.rows[k].updatedAt <= r[0].updatedAt
  {
    ListedKeysBelowSpec(t, t.nextId);
    var ks := ListingKeys(t);
    var r := Listing(t);
    forall i, j | 0 <= i < j < |r| ensures r[i].updatedAt >= r[j].updatedAt {
      assert Le(ListingKey(t)(ks[i]), ListingKey(t)(ks[j]));
    }
    if r != [] {
      forall k | k in t.rows ensures t.rows[k].updatedAt <= r[0].updatedAt {
        var i :| 0 <= i < |ks| && ks[i] == k;
        if i > 0 {
          assert Le(ListingKey(t)(ks[0]), ListingKey(t)(ks[i]));
        }
      }
    }
  }

  /** The `id` of the first process of a listing (`list[0]?.id`). */
  function FirstId(list: seq<ProcessRow>): Option<RowId>
  {
    if list == [] then None else list[0].id
  }

  /** `processes.find(p => p.id === id)`. */
  function Find(list: seq<ProcessRow>, id: RowId): (r: Option<ProcessRow>)
    ensures r.Some? ==> r.value in list && r.value.id == Some(id)
    ensures r.None? ==> forall i :: 0 <= i < |list| ==> list[i].id != Some(id)
  {
    if list == [] then None
    else if list[0].id == Some(id) then Some(list[0])
    else Find(list[1..], id)
  }

  /* ---------------- The steps of one process ---------------- */

  /** `steps.where({processId: pid})`: the keys of the process's step rows, in key order. */
  function StepKeysOf(t: Table<StepRow>, pid: RowId): (ks: seq<RowId>)
    ensures Increasing(ks)
    ensures forall k :: k in ks <==> k in t.rows && k < t.nextId && t.rows[k].processId == pid
  {
    Where(Keys(t), t.rows, (s: StepRow) => s.processId == pid)
  }

  /** `steps.where({processId: pid}).sortBy('index')`: a stable sort of the key-ordered rows. */
  function StepOrder(t: Table<StepRow>): RowId -> Key
  {
    k => Key(if k in t.rows then t.rows[k].index else 0, k)
  }

  /** The keys below `n` of the process's steps in load order, each inserted in turn as a scan
      of the keys meets it. */
  function LoadKeysBelow(t: Table<StepRow>, pid: RowId, n: nat): seq<RowId>
  {
    if n <= 1 then []
    else
      var prev := LoadKeysBelow(t, pid, n - 1);
      var last: RowId := n - 1;
      if last in t.rows && t.rows[last].processId == pid then Insert(last, prev, StepOrder(t)) else prev
  }

  /** The keys loaded are exactly the process's step keys below `n`, once each, in load order. */
  lemma {:induction false} LoadKeysBelowSpec(t: Table<StepRow>, pid: RowId, n: nat)
    ensures var ks := LoadKeysBelow(t, pid, n);
      && (forall k :: k in ks <==> k in t.rows && k < n && t.rows[k].processId == pid)
      && NoDup(ks) && SortedBy(ks, StepOrder(t))
  {
    if n > 1 {
      LoadKeysBelowSpec(t, pid, n - 1);
      var last: RowId := n - 1;
      if last in t.rows && t.rows[last].processId == pid {
        InsertNew(last, LoadKeysBelow(t, pid, n - 1), StepOrder(t));
      }
    }
  }

  function LoadKeys(t: Table<StepRow>, pid: RowId): seq<RowId>
  {
    LoadKeysBelow(t, pid, t.nextId)
  }

  /** The keys loaded for a process are its step keys, once each, in `index` order. */
  lemma LoadKeysSpec(t: Table<StepRow>, pid: RowId)
    ensures var ks := LoadKeys(t, pid);
      && (forall k :: k in ks <==> k in t.rows && k < t.nextId && t.rows[k].processId == pid)
      && NoDup(ks) && SortedBy(ks, StepOrder(t))
  {
    LoadKeysBelowSpec(t, pid, t.nextId);
  }

  /** Loading a process's steps. */
  function LoadSteps(t: Table<StepRow>, pid: RowId): (r: seq<StepRow>)
    ensures |r| == |LoadKeys(t, pid)|
    ensures forall i :: 0 <= i < |r| ==> LoadKeys(t, pid)[i] in t.rows && r[i] == t.rows[LoadKeys(t, pid)[i]]
  {
    LoadKeysSpec(t, pid);
    RowsAt(t.rows, LoadKeys(t, pid))
  }

  /** A loaded step is a stored step of the process; no step is loaded twice. */
  lemma LoadStepsStored(t: Table<StepRow>, pid: RowId)
    requires StepTableOk(t)
    ensures var r := LoadSteps(t, pid); forall i :: 0 <= i < |r| ==>
      r[i].id.Some? && r[i].id.value in t.rows && t.rows[r[i].id.value] == r[i] && r[i].processId == pid
    ensures var r := LoadSteps(t, pid);
      forall i, j :: 0 <= i < |r| && 0 <= j < |r| && i != j ==> r[i].id != r[j].id
  {
    var ks := LoadKeys(t, pid);
    LoadKeysSpec(t, pid);
    var r := LoadSteps(t, pid);
    forall i, j | 0 <= i < |r| && 0 <= j < |r| && i != j ensures r[i].id != r[j].id {
      assert r[i].id == Some(ks[i]) && r[j].id == Some(ks[j]);
    }
  }

  /** Every stored step of the process is loaded, and the loaded list is in `index` order. */
  lemma LoadStepsCompleteAndOrdered(t: Table<StepRow>, pid: RowId)
    requires Issued(t)
    ensures forall k :: k in t.rows && t.rows[k].processId == pid ==> t.rows[k] in LoadSteps(t, pid)
    ensures var r := LoadSteps(t, pid); forall i, j :: 0 <= i < j < |r| ==> r[i].index <= r[j].index
  {
    var ks := LoadKeys(t, pid);
    LoadKeysSpec(t, pid);
    var r := LoadSteps(t, pid);
    forall k | k in t.rows && t.rows[k].processId == pid ensures t.rows[k] in r {
      var i :| 0 <= i < |ks| && ks[i] == k;
      assert r[i] == t.rows[k];
    }
    forall i, j | 0 <= i < j < |r| ensures r[i].index <= r[j].index {
      assert Le(StepOrder(t)(ks[i]), StepOrder(t)(ks[j]));
    }
  }

  /* ---------------- Saving the step list ---------------- */

  /** No two steps of a list carry the same id. */
  predicate IdsDistinct(s: seq<StepRow>)
  {
    forall i, j :: 0 <= i < |s| && 0 <= j < |s| && i != j && s[i].id.Some? ==> s[i].id != s[j].id
  }

  /** Every id in the list was handed out by a generator now at `n`. */
  predicate IdsBelow(s: seq<StepRow>, n: nat)
  {
    forall i :: 0 <= i < |s| && s[i].id.Some? ==> s[i].id.value < n
  }

  predicate AllSaved(s: seq<StepRow>)
  {
    forall i :: 0 <= i < |s| ==> s[i].id.Some?
  }

  /** The ids present in a list (`steps.filter(s => s.id).map(s => s.id)`, as a set). */
  function IdSet(s: seq<StepRow>): set<RowId>
  {
    set i | 0 <= i < |s| && s[i].id.Some? :: s[i].id.value
  }

  /** The steps table together with the in-memory list, after a save. */
  datatype Saved = Saved(table: Table<StepRow>, steps: seq<StepRow>)

  /** One iteration of saveAll's upsert loop: a step with an id is put under it, a step without
      one is added and receives the generated key in place. */
  function UpsertOne(p: Saved, x: StepRow): Saved
  {
    if x.id.Some? then Saved(Put(p.table, x.id.value, x), p.steps + [x])
    else
      var y := x.(id := Some(p.table.nextId));
      Saved(Add(p.table, y), p.steps + [y])
  }

  /** The upsert loop of saveAll over the whole list. */
  function Upserted(t: Table<StepRow>, s: seq<StepRow>): Saved
    decreases |s|
  {
    if s == [] then Saved(t, []) else UpsertOne(Upserted(t, s[..|s| - 1]), s[|s| - 1])
  }

  /** The list `saved` is `s` with an id on every step: the one it had, or a key the generator
      (at `t.nextId` when the loop started) handed out since. */
  predicate IdsGiven(t: Table<StepRow>, s: seq<StepRow>, saved: seq<StepRow>)
  {
    && |saved| == |s| && AllSaved(saved)
    && (forall i :: 0 <= i < |s| ==> saved[i] == s[i].(id := saved[i].id))
    && (forall i :: 0 <= i < |s| && s[i].id.Some? ==> saved[i] == s[i])
    && (forall i :: 0 <= i < |s| && s[i].id.None? ==> t.nextId <= saved[i].id.value)
  }

  /** One more step saved keeps `IdsGiven`. */
  lemma IdsGivenSnoc(t: Table<StepRow>, s: seq<StepRow>, saved: seq<StepRow>, x: StepRow, y: StepRow)
    requires IdsGiven(t, s, saved) && y.id.Some? && y == x.(id := y.id)
    requires x.id.Some? ==> y == x
    requires x.id.None? ==> t.nextId <= y.id.value
    ensures IdsGiven(t, s + [x], saved + [y])
  {
    assert forall i :: 0 <= i < |s| ==> (s + [x])[i] == s[i] && (saved + [y])[i] == saved[i];
  }

  /** What the upsert loop has achieved after saving the steps `s` from table `t`, giving `r`. */
  ghost predicate UpsertDone(t: Table<StepRow>, s: seq<StepRow>, r: Saved)
  {
    && IdsGiven(t, s, r.steps)
    && IdsDistinct(r.steps) && IdsBelow(r.steps, r.table.nextId)
    && StepTableOk(r.table) && t.nextId <= r.table.nextId
    && (forall i :: 0 <= i < |s| ==> r.steps[i].id.value in r.table.rows && r.table.rows[r.steps[i].id.value] == r.steps[i])
    && r.table.rows.Keys == t.rows.Keys + IdSet(r.steps)
    && (forall k :: k in t.rows && k !in IdSet(r.steps) ==> r.table.rows[k] == t.rows[k])
  }

  lemma IdSetSnoc(s: seq<StepRow>, y: StepRow)
    requires y.id.Some?
    ensures IdSet(s + [y]) == IdSet(s) + {y.id.value}
  {
    var r := s + [y];
    forall j | j in IdSet(r) ensures j in IdSet(s) + {y.id.value} {
      var i :| 0 <= i < |r| && r[i].id == Some(j);
      if i < |s| { assert s[i].id == Some(j); }
    }
    forall j | j in IdSet(s) ensures j in IdSet(r) {
      var i :| 0 <= i < |s| && s[i].id == Some(j);
      assert r[i].id == Some(j);
    }
    assert r[|s|].id == Some(y.id.value);
  }

  /** One more iteration keeps the loop's achievements, for a step that has an id. */
  lemma UpsertOneWithId(t: Table<StepRow>, s: seq<StepRow>, p: Saved, x: StepRow)
    requires StepTableOk(t) && UpsertDone(t, s, p)
    requires x.id.Some? && x.id.value < t.nextId
    requires forall i :: 0 <= i < |s| && s[i].id.Some? ==> s[i].id != x.id
    ensures UpsertDone(t, s + [x], UpsertOne(p, x))
  {
    var k := x.id.value;
    var r := UpsertOne(p, x);
    IdsGivenSnoc(t, s, p.steps, x, x);
    forall i | 0 <= i < |s| ensures p.steps[i].id != Some(k) {
      if s[i].id.None? { assert t.nextId <= p.steps[i].id.value; }
    }
    assert k !in IdSet(p.steps);
    IdSetSnoc(p.steps, x);
    assert r.table == Put(p.table, k, x) && r.steps == p.steps + [x];
    DistinctSnoc(p.steps, x);
    StoredSnoc(p.steps, p.table, r.table, x);
    TableSnoc(t, p.steps, p.table, r.table, x);
  }

  /** One more iteration keeps the loop's achievements, for a step that has no id yet. */
  lemma UpsertOneWithoutId(t: Table<StepRow>, s: seq<StepRow>, p: Saved, x: StepRow)
    requires StepTableOk(t) && UpsertDone(t, s, p)
    requires x.id.None?
    ensures UpsertDone(t, s + [x], UpsertOne(p, x))
  {
    var k := p.table.nextId;
    var y := x.(id := Some(k));
    IdsGivenSnoc(t, s, p.steps, x, y);
    assert k !in IdSet(p.steps);
    assert k !in p.table.rows;
    IdSetSnoc(p.steps, y);
    DistinctSnoc(p.steps, y);
    StoredSnoc(p.steps, p.table, Add(p.table, y), y);
    TableSnoc(t, p.steps, p.table, Add(p.table, y), y);
  }

  /** Storing one more step of the list under its id keeps the table's part of `UpsertDone`. */
  lemma TableSnoc(t: Table<StepRow>, steps: seq<StepRow>, before: Table<StepRow>, after: Table<StepRow>, y: StepRow)
    requires StepTableOk(before) && before.rows.Keys == t.rows.Keys + IdSet(steps)
    requires forall k :: k in t.rows && k !in IdSet(steps) ==> before.rows[k] == t.rows[k]
    requires y.id.Some? && after.rows == before.rows[y.id.value := y]
    requires before.nextId <= after.nextId && y.id.value < after.nextId
    requires IdSet(steps + [y]) == IdSet(steps) + {y.id.value}
    ensures StepTableOk(after) && after.rows.Keys == t.rows.Keys + IdSet(steps + [y])
    ensures forall k :: k in t.rows && k !in IdSet(steps + [y]) ==> after.rows[k] == t.rows[k]
  {
  }

  /** A list with distinct ids stays so when a step with a new id is appended. */
  lemma DistinctSnoc(s: seq<StepRow>, y: StepRow)
    requires IdsDistinct(s) && y.id.Some? && y.id.value !in IdSet(s)
    ensures IdsDistinct(s + [y])
  {
    var r := s + [y];
    forall i, j | 0 <= i < |r| && 0 <= j < |r| && i != j && r[i].id.Some?
      ensures r[i].id != r[j].id
    {
      if i < |s| && j < |s| {
        assert r[i] == s[i] && r[j] == s[j];
      } else if i < |s| {
        assert s[i].id.value in IdSet(s);
      } else if s[j].id.Some? {
        assert s[j].id.value in IdSet(s);
      }
    }
  }

  /** Every step of the list is stored under its id in `u` once the last one is put there and
      the others' rows are kept. */
  lemma StoredSnoc(s: seq<StepRow>, t: Table<StepRow>, u: Table<StepRow>, y: StepRow)
    requires forall i :: 0 <= i < |s| ==> s[i].id.Some? && s[i].id.value in t.rows && t.rows[s[i].id.value] == s[i]
    requires y.id.Some? && y.id.value in u.rows && u.rows[y.id.value] == y
    requires forall k :: k in t.rows && k != y.id.value ==> k in u.rows && u.rows[k] == t.rows[k]
    requires y.id.value !in IdSet(s)
    ensures forall i :: 0 <= i < |s| + 1 ==>
      var z := (s + [y])[i]; z.id.Some? && z.id.value in u.rows && u.rows[z.id.value] == z
  {
    forall i | 0 <= i < |s| + 1
      ensures var z := (s + [y])[i]; z.id.Some? && z.id.value in u.rows && u.rows[z.id.value] == z
    {
      if i < |s| {
        assert (s + [y])[i] == s[i] && s[i].id.value in IdSet(s);
      }
    }
  }

  /** After the upsert loop every step has an id (the ones it had, or fresh keys), the table holds
      each step under its id, and rows of no step of the list are untouched. */
  lemma {:induction false} UpsertedSpec(t: Table<StepRow>, s: seq<StepRow>)
    requires StepTableOk(t) && IdsDistinct(s) && IdsBelow(s, t.nextId)
    ensures UpsertDone(t, s, Upserted(t, s))
    decreases |s|
  {
    if s != [] {
      var n := |s|;
      var s0 := s[..n - 1];
      assert s0 + [s[n - 1]] == s;
      UpsertedSpec(t, s0);
      if s[n - 1].id.Some? {
        UpsertOneWithId(t, s0, Upserted(t, s0), s[n - 1]);
      } else {
        UpsertOneWithoutId(t, s0, Upserted(t, s0), s[n - 1]);
      }
    }
  }

  /** The deletions of saveAll's pruning loop after it has visited the keys `ks`: a visited row
      whose key is not in `keep` is gone. */
  function PrunedAmong(t: Table<StepRow>, ks: seq<RowId>, keep: set<RowId>): Table<StepRow>
  {
    Table(map k | k in t.rows && (k !in ks || k in keep) :: t.rows[k], t.nextId)
  }

  /** saveAll's pruning loop: deletes every step row of process `pid` whose key is not in `keep`. */
  function Pruned(t: Table<StepRow>, pid: RowId, keep: set<RowId>): Table<StepRow>
  {
    PrunedAmong(t, StepKeysOf(t, pid), keep)
  }

  /** The step-table part of saveAll's transaction: upsert every step, then prune. */
  function SaveSteps(t: Table<StepRow>, pid: RowId, s: seq<StepRow>): Saved
  {
    var u := Upserted(t, s);
    Saved(Pruned(u.table, pid, IdSet(u.steps)), u.steps)
  }

  /** What the editor keeps true of its step list between saves: the list belongs to process
      `pid`, its ids are distinct keys handed out by the table, and an id that is still stored is
      a step of `pid`. */
  ghost predicate SaveReady(t: Table<StepRow>, pid: RowId, s: seq<StepRow>)
  {
    && StepTableOk(t) && IdsDistinct(s) && IdsBelow(s, t.nextId)
    && (forall i :: 0 <= i < |s| ==> s[i].processId == pid)
    && (forall i :: 0 <= i < |s| && s[i].id.Some? && s[i].id.value in t.rows ==> t.rows[s[i].id.value].processId == pid)
  }

  /** The rows of process `pid` are exactly the steps of `s`, each stored under its id. */
  ghost predicate PersistedExactly(t: Table<StepRow>, pid: RowId, s: seq<StepRow>)
  {
    && AllSaved(s)
    && (forall k :: k in t.rows && t.rows[k].processId == pid <==> k in IdSet(s))
    && (forall i :: 0 <= i < |s| ==> s[i].id.value in t.rows && t.rows[s[i].id.value] == s[i])
  }

  /** The rows of every other process are the same in `t` and `u`. */
  ghost predicate OthersUnchanged(t: Table<StepRow>, u: Table<StepRow>, pid: RowId)
  {
    && (forall k :: k in u.rows && u.rows[k].processId != pid <==> k in t.rows && t.rows[k].processId != pid)
    && (forall k :: k in u.rows && u.rows[k].processId != pid ==> u.rows[k] == t.rows[k])
  }

  /** Pruning against a list whose steps are all stored leaves exactly the listed rows. */
  lemma PruneKeepsNamed(u: Table<StepRow>, pid: RowId, steps: seq<StepRow>)
    requires Issued(u) && AllSaved(steps)
    requires forall i :: 0 <= i < |steps| ==>
      steps[i].id.value in u.rows && u.rows[steps[i].id.value] == steps[i] && steps[i].processId == pid
    ensures PersistedExactly(Pruned(u, pid, IdSet(steps)), pid, steps)
  {
    var keep := IdSet(steps);
    var r := Pruned(u, pid, keep);
    var ks := StepKeysOf(u, pid);
    assert r.rows == map k | k in u.rows && (k !in ks || k in keep) :: u.rows[k];
    forall k | k in keep ensures k in r.rows && r.rows[k].processId == pid {
      var i :| 0 <= i < |steps| && steps[i].id == Some(k);
    }
    forall i | 0 <= i < |steps| ensures steps[i].id.value in keep {
    }
  }

  /** The pruning keeps exactly the process's rows that the upserted list names. */
  lemma PruneKeepsListed(t: Table<StepRow>, pid: RowId, s: seq<StepRow>)
    requires SaveReady(t, pid, s)
    ensures PersistedExactly(SaveSteps(t, pid, s).table, pid, Upserted(t, s).steps)
  {
    UpsertedSpec(t, s);
    var u := Upserted(t, s);
    assert forall i :: 0 <= i < |s| ==> u.steps[i].processId == s[i].processId;
    PruneKeepsNamed(u.table, pid, u.steps);
  }

  /** What the pruning needs to know about the upsert: it added or replaced only rows of `pid`,
      under the keys the list now names. */
  ghost predicate UpsertTouchedOnly(t: Table<StepRow>, u: Table<StepRow>, pid: RowId, keep: set<RowId>)
  {
    && Issued(u)
    && u.rows.Keys == t.rows.Keys + keep
    && (forall k :: k in t.rows && k !in keep ==> u.rows[k] == t.rows[k])
    && (forall k :: k in keep ==> u.rows[k].processId == pid)
    && (forall k :: k in keep && k in t.rows ==> t.rows[k].processId == pid)
  }

  lemma UpsertTouchesOnlyListed(t: Table<StepRow>, pid: RowId, s: seq<StepRow>)
    requires SaveReady(t, pid, s)
    ensures UpsertTouchedOnly(t, Upserted(t, s).table, pid, IdSet(Upserted(t, s).steps))
  {
    UpsertedSpec(t, s);
    var u := Upserted(t, s);
    var keep := IdSet(u.steps);
    forall k | k in keep ensures u.table.rows[k].processId == pid && (k in t.rows ==> t.rows[k].processId == pid) {
      var i :| 0 <= i < |s| && u.steps[i].id == Some(k);
      assert u.steps[i].processId == s[i].processId;
      if s[i].id.None? { assert t.nextId <= k; }
    }
  }

  /** Pruning only deletes rows, and never a row of another process. */
  lemma PruneDeletesOwnOnly(u: Table<StepRow>, pid: RowId, keep: set<RowId>)
    ensures var r := Pruned(u, pid, keep);
      && (forall k :: k in r.rows ==> k in u.rows && r.rows[k] == u.rows[k])
      && (forall k :: k in u.rows && u.rows[k].processId != pid ==> k in r.rows)
  {
    var ks := StepKeysOf(u, pid);
    forall k | k in u.rows && u.rows[k].processId != pid
      ensures k in Pruned(u, pid, keep).rows
    {
      assert k !in ks;
    }
  }

  lemma PruneLeavesOthers(t: Table<StepRow>, u: Table<StepRow>, pid: RowId, keep: set<RowId>)
    requires UpsertTouchedOnly(t, u, pid, keep)
    ensures OthersUnchanged(t, Pruned(u, pid, keep), pid)
  {
    PruneDeletesOwnOnly(u, pid, keep);
  }

  /** Neither the upsert nor the pruning touches another process's rows. */
  lemma SaveLeavesOthers(t: Table<StepRow>, pid: RowId, s: seq<StepRow>)
    requires SaveReady(t, pid, s)
    ensures OthersUnchanged(t, SaveSteps(t, pid, s).table, pid)
  {
    UpsertTouchesOnlyListed(t, pid, s);
    var u := Upserted(t, s);
    PruneLeavesOthers(t, u.table, pid, IdSet(u.steps));
  }

  /** saveAll on the step table: afterwards every in-memory step has an id (kept when it had one,
      fresh otherwise) and no other field changes; the stored steps of the process are exactly the
      in-memory list; the steps of other processes are untouched. */
  lemma SaveStepsCorrect(t: Table<StepRow>, pid: RowId, s: seq<StepRow>)
    requires SaveReady(t, pid, s)
    ensures var r := SaveSteps(t, pid, s);
      && |r.steps| == |s| && AllSaved(r.steps)
      && (forall i :: 0 <= i < |s| ==> r.steps[i] == s[i].(id := r.steps[i].id))
      && (forall i :: 0 <= i < |s| && s[i].id.Some? ==> r.steps[i].id == s[i].id)
      && (forall i :: 0 <= i < |s| && s[i].id.None? ==> t.nextId <= r.steps[i].id.value)
      && PersistedExactly(r.table, pid, r.steps)
      && OthersUnchanged(t, r.table, pid)
      && SaveReady(r.table, pid, r.steps)
      && t.nextId <= r.table.nextId
  {
    UpsertedSpec(t, s);
    PruneKeepsListed(t, pid, s);
    SaveLeavesOthers(t, pid, s);
    var u := Upserted(t, s);
    PruneDeletesOwnOnly(u.table, pid, IdSet(u.steps));
    var r := SaveSteps(t, pid, s);
    assert r.table.nextId == u.table.nextId;
    PersistedReady(r.table, pid, r.steps);
  }

  /** A list stored exactly, with distinct ids, is ready to be saved again. */
  lemma PersistedReady(t: Table<StepRow>, pid: RowId, s: seq<StepRow>)
    requires StepTableOk(t) && IdsDistinct(s) && PersistedExactly(t, pid, s)
    ensures SaveReady(t, pid, s)
  {
    forall i | 0 <= i < |s| ensures s[i].processId == pid {
      assert s[i].id.value in IdSet(s);
    }
  }

  /** Upserting steps that are all stored exactly as they are changes nothing. */
  lemma {:induction false} UpsertStoredIsNoop(t: Table<StepRow>, s: seq<StepRow>)
    requires AllSaved(s) && IdsBelow(s, t.nextId)
    requires forall i :: 0 <= i < |s| ==> s[i].id.value in t.rows && t.rows[s[i].id.value] == s[i]
    ensures Upserted(t, s) == Saved(t, s)
    decreases |s|
  {
    if s != [] {
      var n := |s|;
      var s0 := s[..n - 1];
      assert forall i :: 0 <= i < n - 1 ==> s0[i] == s[i];
      UpsertStoredIsNoop(t, s0);
      var x := s[n - 1];
      var k := x.id.value;
      assert Upserted(t, s) == UpsertOne(Saved(t, s0), x);
      assert t.rows[k := x] == t.rows;
      assert Put(t, k, x) == t;
      assert s0 + [x] == s;
    }
  }

  /** A second save with no edit in between leaves the table and the list as they are. */
  lemma SaveIsIdempotent(t: Table<StepRow>, pid: RowId, s: seq<StepRow>)
    requires SaveReady(t, pid, s)
    ensures var r := SaveSteps(t, pid, s); SaveSteps(r.table, pid, r.steps) == r
  {
    SaveStepsCorrect(t, pid, s);
    var r := SaveSteps(t, pid, s);
    UpsertStoredIsNoop(r.table, r.steps);
    PruneListedIsNoop(r.table, pid, r.steps);
  }

  /** Pruning a table whose rows of `pid` are exactly the listed ones deletes nothing. */
  lemma PruneListedIsNoop(t: Table<StepRow>, pid: RowId, s: seq<StepRow>)
    requires PersistedExactly(t, pid, s)
    ensures Pruned(t, pid, IdSet(s)) == t
  {
    var keep := IdSet(s);
    var ks := StepKeysOf(t, pid);
    var p := Pruned(t, pid, keep);
    assert p.rows == map k | k in t.rows && (k !in ks || k in keep) :: t.rows[k];
    assert p.rows == t.rows;
  }

  /** Undo after a save can bring back a step without an id (snapshots are taken before ids are
      assigned). Saving that list again stores the step under a new key and prunes the row the
      first save created for it; the process still has exactly the listed steps. */
  lemma ResaveAfterUndo(t: Table<StepRow>, pid: RowId, s: seq<StepRow>, i: int)
    requires SaveReady(t, pid, s)
    requires 0 <= i < |s| && s[i].id.None?
    ensures var r1 := SaveSteps(t, pid, s);
      SaveReady(r1.table, pid, s) &&
      var r2 := SaveSteps(r1.table, pid, s);
      && |r1.steps| == |s| && |r2.steps| == |s|
      && r1.steps[i].id.Some? && r2.steps[i].id.Some?
      && r1.table.nextId <= r2.steps[i].id.value
      && r1.steps[i].id.value in r1.table.rows
      && r1.steps[i].id.value !in r2.table.rows
      && PersistedExactly(r2.table, pid, r2.steps)
  {
    SaveStepsCorrect(t, pid, s);
    var r1 := SaveSteps(t, pid, s);
    assert SaveReady(r1.table, pid, s) by {
      forall j | 0 <= j < |s| && s[j].id.Some? && s[j].id.value in r1.table.rows
        ensures r1.table.rows[s[j].id.value].processId == pid
      {
        assert r1.steps[j] == s[j];
      }
    }
    SaveStepsCorrect(r1.table, pid, s);
    var r2 := SaveSteps(r1.table, pid, s);
    var first := r1.steps[i].id.value;
    assert r1.table.rows[first].processId == pid;
    forall j | 0 <= j < |s| ensures r2.steps[j].id != Some(first) {
      if s[j].id.Some? {
        assert s[j].id.value < t.nextId <= first;
      } else {
        assert first < r1.table.nextId <= r2.steps[j].id.value;
      }
    }
    assert first !in IdSet(r2.steps);
  }

  /* ---------------- Deleting a process ---------------- */

  /** deleteProcess's transaction: the process's artifacts, then its steps, then the process. */
  function CascadeDeleted(db: Database, id: RowId): Database
  {
    Database(
      Delete(db.processes, id),
      DeleteWhere(db.steps, (s: StepRow) => s.processId == id),
      DeleteWhere(db.artifacts, (a: ArtifactRow) => a.processId == id))
  }

  /** The cascade removes the process and every step and artifact that belongs to it, and nothing
      else; the database stays well formed. */
  lemma CascadeDeleteSpec(db: Database, id: RowId)
    requires WellFormed(db)
    ensures var r := CascadeDeleted(db, id);
      && WellFormed(r)
      && r.processes.rows.Keys == db.processes.rows.Keys - {id}
      && (forall k :: k in r.processes.rows ==> r.processes.rows[k] == db.processes.rows[k])
      && (forall k :: k in r.steps.rows <==> k in db.steps.rows && db.steps.rows[k].processId != id)
      && (forall k :: k in r.steps.rows ==> r.steps.rows[k] == db.steps.rows[k])
      && (forall k :: k in r.artifacts.rows <==> k in db.artifacts.rows && db.artifacts.rows[k].processId != id)
      && (forall k :: k in r.artifacts.rows ==> r.artifacts.rows[k] == db.artifacts.rows[k])
  {
  }
}
