/**
 * What the editor's event handlers (src/App.tsx) do to values: the consistency the editor keeps
 * between its step list, its undo stacks and the database; the loops of the handlers, as methods
 * over tables and lists; and the whole effect of saveAll.
 */
module Handlers {
  import opened Wrappers
  import opened Tables
  import opened Records
  import opened History
  import opened StepList
  import opened Persistence
  import opened Transfer
  import opened Sync

  /* ---------------- Consistency of lists with the steps table ---------------- */

  /** Every list of a stack can be saved into process `pid`. */
  ghost predicate AllReady(t: Table<StepRow>, pid: RowId, stack: seq<Snapshot>)
  {
    forall k :: 0 <= k < |stack| ==> SaveReady(t, pid, stack[k])
  }

  /** The current list and every list undo or redo can bring back can be saved into `pid`. */
  ghost predicate SessionReady(t: Table<StepRow>, pid: RowId, s: Session)
  {
    SaveReady(t, pid, s.steps) && AllReady(t, pid, s.history) && AllReady(t, pid, s.future)
  }

  /** A list built from `s` whose step `k` carries the id of `s[src[k]]` (or no id when
      `src[k] == -1`), no source position used twice, all in process `pid`, is as ready to be
      saved as `s`. */
  lemma ReadyFromSources(t: Table<StepRow>, pid: RowId, s: seq<StepRow>, r: seq<StepRow>, src: seq<int>)
    requires SaveReady(t, pid, s)
    requires |src| == |r|
    requires forall k :: 0 <= k < |r| ==> -1 <= src[k] < |s|
    requires forall a, b :: 0 <= a < |r| && 0 <= b < |r| && a != b && src[a] >= 0 ==> src[a] != src[b]
    requires forall k :: 0 <= k < |r| && src[k] >= 0 ==> r[k].id == s[src[k]].id
    requires forall k :: 0 <= k < |r| && src[k] == -1 ==> r[k].id.None?
    requires forall k :: 0 <= k < |r| ==> r[k].processId == pid
    ensures SaveReady(t, pid, r)
  {
    forall a, b | 0 <= a < |r| && 0 <= b < |r| && a != b && r[a].id.Some?
      ensures r[a].id != r[b].id
    {
      if src[b] >= 0 {
        assert s[src[a]].id != s[src[b]].id;
      }
    }
  }

  /** The positions `0 .. n-1`, each the source of itself. */
  function Identity(n: nat): (src: seq<int>)
    ensures |src| == n && forall k :: 0 <= k < n ==> src[k] == k
  {
    seq(n, k requires 0 <= k < n => k)
  }

  /** An edit that leaves every step's id and process alone keeps the list ready. */
  lemma ReadySameKeys(t: Table<StepRow>, pid: RowId, s: seq<StepRow>, r: seq<StepRow>)
    requires SaveReady(t, pid, s) && |r| == |s|
    requires forall k :: 0 <= k < |s| ==> r[k].id == s[k].id && r[k].processId == s[k].processId
    ensures SaveReady(t, pid, r)
  {
    ReadyFromSources(t, pid, s, r, Identity(|s|));
  }

  /** addStep keeps the list ready. */
  lemma AppendedReady(t: Table<StepRow>, pid: RowId, s: seq<StepRow>)
    requires SaveReady(t, pid, s)
    ensures SaveReady(t, pid, Appended(s, pid))
  {
    ReadyFromSources(t, pid, s, Appended(s, pid), Identity(|s|) + [-1]);
  }

  /** moveStep keeps the list ready. */
  lemma MovedReady(t: Table<StepRow>, pid: RowId, s: seq<StepRow>, i: int, dir: int)
    requires dir == -1 || dir == 1
    requires 0 <= i < |s| && 0 <= i + dir < |s|
    requires SaveReady(t, pid, s)
    ensures SaveReady(t, pid, Moved(s, i, dir))
  {
    var r := Moved(s, i, dir);
    var src := Identity(|s|)[i := i + dir][i + dir := i];
    assert forall k :: 0 <= k < |r| ==> src[k] == if k == i then i + dir else if k == i + dir then i else k;
    forall k | 0 <= k < |r| ensures r[k].id == s[src[k]].id && r[k].processId == pid {
      if k != i && k != i + dir {
        assert r[k] == s[k].(index := k);
      }
    }
    ReadyFromSources(t, pid, s, r, src);
  }

  /** removeStep keeps the list ready. */
  lemma RemovedReady(t: Table<StepRow>, pid: RowId, s: seq<StepRow>, i: int)
    requires SaveReady(t, pid, s)
    ensures SaveReady(t, pid, Removed(s, i))
  {
    var r := Removed(s, i);
    if 0 <= i < |s| {
      var src := seq(|r|, k requires 0 <= k < |r| => if k < i then k else k + 1);
      ReadyFromSources(t, pid, s, r, src);
    } else {
      ReadySameKeys(t, pid, s, r);
    }
  }

  /** updateStep keeps the list ready. */
  lemma UpdatedReady(t: Table<StepRow>, pid: RowId, s: seq<StepRow>, i: int, p: Patch)
    requires 0 <= i < |s| && SaveReady(t, pid, s)
    ensures SaveReady(t, pid, UpdatedSteps(s, i, p))
  {
    ReadySameKeys(t, pid, s, UpdatedSteps(s, i, p));
  }

  /** A structural edit to a ready list keeps the session ready. */
  lemma RecordReady(t: Table<StepRow>, pid: RowId, s: Session, next: Snapshot)
    requires SessionReady(t, pid, s) && SaveReady(t, pid, next)
    ensures SessionReady(t, pid, Record(s, next))
  {
  }

  lemma UndoReady(t: Table<StepRow>, pid: RowId, s: Session)
    requires SessionReady(t, pid, s)
    ensures SessionReady(t, pid, Undo(s))
  {
    if s.history != [] {
      var f := [s.steps] + s.future;
      assert forall k :: 1 <= k < |f| ==> f[k] == s.future[k - 1];
      assert forall k :: 0 <= k < |s.history| - 1 ==> s.history[1..][k] == s.history[k + 1];
    }
  }

  lemma RedoReady(t: Table<StepRow>, pid: RowId, s: Session)
    requires SessionReady(t, pid, s)
    ensures SessionReady(t, pid, Redo(s))
  {
    if s.future != [] {
      assert forall k :: 0 <= k < |s.future| - 1 ==> s.future[1..][k] == s.future[k + 1];
    }
  }

  /** Between `t` and `u`, no row below `t`'s generator moved into another process than `pid`'s:
      such a row of another process in `u` was already a row of another process in `t`. */
  ghost predicate StepsStillOwned(t: Table<StepRow>, u: Table<StepRow>, pid: RowId)
  {
    && t.nextId <= u.nextId
    && forall k :: k in u.rows && k < t.nextId && u.rows[k].processId != pid ==>
         k in t.rows && t.rows[k].processId != pid
  }

  lemma ReadyCarries(t: Table<StepRow>, u: Table<StepRow>, pid: RowId, s: seq<StepRow>)
    requires SaveReady(t, pid, s) && StepTableOk(u) && StepsStillOwned(t, u, pid)
    ensures SaveReady(u, pid, s)
  {
  }

  /** A change of the steps table that keeps `pid`'s ids with `pid` keeps the session ready. */
  lemma SessionCarries(t: Table<StepRow>, u: Table<StepRow>, pid: RowId, s: Session)
    requires SessionReady(t, pid, s) && StepTableOk(u) && StepsStillOwned(t, u, pid)
    ensures SessionReady(u, pid, s)
  {
    ReadyCarries(t, u, pid, s.steps);
    forall k | 0 <= k < |s.history| ensures SaveReady(u, pid, s.history[k]) {
      ReadyCarries(t, u, pid, s.history[k]);
    }
    forall k | 0 <= k < |s.future| ensures SaveReady(u, pid, s.future[k]) {
      ReadyCarries(t, u, pid, s.future[k]);
    }
  }

  /** A freshly loaded list is ready, with nothing to undo or redo. */
  lemma LoadedReady(t: Table<StepRow>, pid: RowId)
    requires StepTableOk(t)
    ensures SessionReady(t, pid, Session(LoadSteps(t, pid), [], []))
  {
    LoadStepsStored(t, pid);
  }

  /* ---------------- Loading: artifacts grouped by step ---------------- */

  /** `arts.filter(a => a.stepId === sid)`. */
  function ArtifactsOf(arts: seq<ArtifactRow>, sid: RowId): (r: seq<ArtifactRow>)
    ensures |r| <= |arts|
    ensures forall a :: a in r ==> a in arts && a.stepId == sid
    decreases |arts|
  {
    if arts == [] then []
    else
      var n := |arts|;
      ArtifactsOf(arts[..n - 1], sid) + (if arts[n - 1].stepId == sid then [arts[n - 1]] else [])
  }

  /** Every artifact of the step is among the filtered ones. */
  lemma {:induction false} ArtifactsOfComplete(arts: seq<ArtifactRow>, sid: RowId)
    ensures forall a :: a in arts && a.stepId == sid ==> a in ArtifactsOf(arts, sid)
    decreases |arts|
  {
    if arts != [] {
      var n := |arts|;
      ArtifactsOfComplete(arts[..n - 1], sid);
      assert forall a :: a in arts ==> a in arts[..n - 1] || a == arts[n - 1];
    }
  }

  /** `g` holds, under each step id it has, exactly that step's artifacts in their order, and it
      has every step id that some artifact carries. */
  ghost predicate GroupedBy(g: map<RowId, seq<ArtifactRow>>, arts: seq<ArtifactRow>)
  {
    forall sid ::
      && (sid in g ==> g[sid] == ArtifactsOf(arts, sid))
      && (ArtifactsOf(arts, sid) != [] ==> sid in g)
  }

  /** The grouping loop of the load effect. */
  method GroupByStep(arts: seq<ArtifactRow>) returns (grouped: map<RowId, seq<ArtifactRow>>)
    ensures GroupedBy(grouped, arts)
    ensures forall sid :: sid in grouped ==> grouped[sid] != []
  {
    grouped := map[];
    var i := 0;
    while i < |arts|
      invariant 0 <= i <= |arts|
      invariant GroupedBy(grouped, arts[..i])
      invariant forall sid :: sid in grouped ==> grouped[sid] != []
    {
      var a := arts[i];
      if a.stepId !in grouped {
        grouped := grouped[a.stepId := []];
      }
      grouped := grouped[a.stepId := grouped[a.stepId] + [a]];
      assert arts[..i + 1][..i] == arts[..i];
      i := i + 1;
    }
    assert arts[..|arts|] == arts;
  }

  /** `list.filter(a => a.id !== id)`. */
  function WithoutArtifact(list: seq<ArtifactRow>, id: Option<RowId>): (r: seq<ArtifactRow>)
    ensures |r| <= |list|
    ensures forall a :: a in r <==> a in list && a.id != id
    decreases |list|
  {
    if list == [] then []
    else
      var n := |list|;
      WithoutArtifact(list[..n - 1], id) + (if list[n - 1].id != id then [list[n - 1]] else [])
  }

  lemma WithoutSnoc(x: seq<ArtifactRow>, a: ArtifactRow, id: Option<RowId>)
    ensures WithoutArtifact(x + [a], id) == WithoutArtifact(x, id) + (if a.id != id then [a] else [])
  {
    assert (x + [a])[..|x|] == x;
  }

  lemma OfSnoc(x: seq<ArtifactRow>, a: ArtifactRow, sid: RowId)
    ensures ArtifactsOf(x + [a], sid) == ArtifactsOf(x, sid) + (if a.stepId == sid then [a] else [])
  {
    assert (x + [a])[..|x|] == x;
  }

  /** Removing an artifact from a step's group is removing it from the process's artifacts and
      grouping again: the two filters commute. */
  lemma {:induction false} RemoveThenGroup(arts: seq<ArtifactRow>, sid: RowId, id: Option<RowId>)
    ensures ArtifactsOf(WithoutArtifact(arts, id), sid) == WithoutArtifact(ArtifactsOf(arts, sid), id)
    decreases |arts|
  {
    if arts != [] {
      var n := |arts|;
      var x := arts[..n - 1];
      var a := arts[n - 1];
      assert arts == x + [a];
      RemoveThenGroup(x, sid, id);
      var w := WithoutArtifact(x, id);
      var g := ArtifactsOf(x, sid);
      calc {
        ArtifactsOf(WithoutArtifact(arts, id), sid);
        { WithoutSnoc(x, a, id); }
        ArtifactsOf(w + (if a.id != id then [a] else []), sid);
        { if a.id != id { OfSnoc(w, a, sid); } else { assert w + [] == w; } }
        ArtifactsOf(w, sid) + (if a.id != id && a.stepId == sid then [a] else []);
        WithoutArtifact(g, id) + (if a.id != id && a.stepId == sid then [a] else []);
        { if a.stepId == sid { WithoutSnoc(g, a, id); } else { assert g + [] == g; } }
        WithoutArtifact(g + (if a.stepId == sid then [a] else []), id);
        { OfSnoc(x, a, sid); }
        WithoutArtifact(ArtifactsOf(arts, sid), id);
      }
    }
  }

  /* ---------------- Dropping files on a step ---------------- */

  /** A file as the drop zone hands it over. */
  datatype DroppedFile = DroppedFile(name: string, mimeType: string, size: nat, blob: Blob)

  /** The artifact row onDropFiles stores for a file; an empty MIME type becomes
      `application/octet-stream`. */
  function DroppedArtifact(f: DroppedFile, pid: RowId, sid: RowId, kind: ArtifactKind): (a: ArtifactRow)
    ensures a.mimeType != ""
    ensures f.mimeType != "" ==> a.mimeType == f.mimeType
    ensures a.processId == pid && a.stepId == sid && a.kind == kind && a.blob == Some(f.blob)
  {
    ArtifactRow(None, pid, sid, kind, f.name,
      if f.mimeType != "" then f.mimeType else "application/octet-stream", f.size, Some(f.blob))
  }

  /** `u` is `t` with `rows` added one after the other under consecutive fresh keys. */
  ghost predicate AddedInOrder<R>(t: Table<R>, u: Table<R>, rows: seq<R>)
  {
    && u.nextId == t.nextId + |rows|
    && (forall k :: k in u.rows <==> k in t.rows || t.nextId <= k < t.nextId + |rows|)
    && (forall k :: k in t.rows ==> u.rows[k] == t.rows[k])
    && (forall j :: 0 <= j < |rows| ==> u.rows[t.nextId + j] == rows[j])
  }

  /** The rows onDropFiles stores for `files`, under consecutive keys from `t`'s generator. */
  function NewArtifacts(t: Table<ArtifactRow>, pid: RowId, sid: RowId, kind: ArtifactKind, files: seq<DroppedFile>): (rows: seq<ArtifactRow>)
    ensures |rows| == |files|
    ensures forall j :: 0 <= j < |files| ==>
      rows[j].id == Some(t.nextId + j) && rows[j].processId == pid && rows[j].stepId == sid
  {
    seq(|files|, j requires 0 <= j < |files| => DroppedArtifact(files[j], pid, sid, kind).(id := Some(t.nextId + j)))
  }

  /** onDropFiles's loop: each file is added as an artifact of step `sid`, and the stored row
      (with its generated key) is collected. */
  method AddArtifacts(t: Table<ArtifactRow>, pid: RowId, sid: RowId, kind: ArtifactKind, files: seq<DroppedFile>)
    returns (u: Table<ArtifactRow>, created: seq<ArtifactRow>)
    requires Issued(t)
    ensures created == NewArtifacts(t, pid, sid, kind, files)
    ensures AddedInOrder(t, u, created) && Issued(u)
  {
    u := t;
    created := [];
    var j := 0;
    while j < |files|
      invariant 0 <= j <= |files| && |created| == j
      invariant forall q :: 0 <= q < j ==>
        created[q] == DroppedArtifact(files[q], pid, sid, kind).(id := Some(t.nextId + q))
      invariant AddedInOrder(t, u, created) && Issued(u)
    {
      var row := DroppedArtifact(files[j], pid, sid, kind).(id := Some(u.nextId));
      u := Add(u, row);
      created := created + [row];
      j := j + 1;
    }
  }

  /** Dropped files keep the database well formed. */
  lemma AddedArtifactsOk(db: Database, u: Table<ArtifactRow>, created: seq<ArtifactRow>, pid: RowId)
    requires WellFormed(db) && pid in db.processes.rows && AddedInOrder(db.artifacts, u, created)
    requires forall j :: 0 <= j < |created| ==>
      created[j].id == Some(db.artifacts.nextId + j) && created[j].processId == pid
    ensures WellFormed(db.(artifacts := u))
  {
    var t := db.artifacts;
    forall k | k in u.rows && k !in t.rows ensures u.rows[k].id == Some(k) && u.rows[k].processId == pid {
      assert u.rows[t.nextId + (k - t.nextId)] == created[k - t.nextId];
    }
  }

  /* ---------------- updateStep's copy ---------------- */

  /** updateStep's list: the patched copy, and, when the patch marks the end, the loop that
      unmarks every other step before the end step loses its successor. */
  method UpdateCopy(s: seq<StepRow>, i: int, p: Patch) returns (r: seq<StepRow>)
    requires 0 <= i < |s|
    ensures r == UpdatedSteps(s, i, p)
  {
    r := s[i := Patched(s[i], p)];
    if p.isEnd == Some(true) {
      var k := 0;
      while k < |r|
        invariant 0 <= k <= |r| && |r| == |s|
        invariant r[i] == Patched(s[i], p)
        invariant forall q :: 0 <= q < |s| && q != i ==> r[q] == if q < k then s[q].(isEnd := false) else s[q]
      {
        if k != i {
          r := r[k := r[k].(isEnd := false)];
        }
        k := k + 1;
      }
      r := r[i := r[i].(nextType := End, nextRef := None)];
    }
  }

  /* ---------------- saveAll's loops ---------------- */

  /** saveAll's upsert loop: put each step that has an id, add each one that has none and give
      it the generated key. */
  method UpsertSteps(t: Table<StepRow>, s: seq<StepRow>) returns (u: Table<StepRow>, saved: seq<StepRow>)
    ensures Saved(u, saved) == Upserted(t, s)
  {
    u := t;
    saved := [];
    var i := 0;
    while i < |s|
      invariant 0 <= i <= |s|
      invariant Saved(u, saved) == Upserted(t, s[..i])
    {
      var x := s[i];
      if x.id.Some? {
        u := Put(u, x.id.value, x);
        saved := saved + [x];
      } else {
        var y := x.(id := Some(u.nextId));
        u := Add(u, y);
        saved := saved + [y];
      }
      assert s[..i + 1][..i] == s[..i];
      i := i + 1;
    }
    assert s[..|s|] == s;
  }

  lemma PruneNone(t: Table<StepRow>, keep: set<RowId>)
    ensures PrunedAmong(t, [], keep) == t
  {
    assert PrunedAmong(t, [], keep).rows == t.rows;
  }

  lemma PruneOneMore(t: Table<StepRow>, ks: seq<RowId>, k: RowId, keep: set<RowId>)
    ensures k in keep ==> PrunedAmong(t, ks + [k], keep) == PrunedAmong(t, ks, keep)
    ensures k !in keep ==> PrunedAmong(t, ks + [k], keep) == Delete(PrunedAmong(t, ks, keep), k)
  {
    assert forall j :: j in ks + [k] <==> j in ks || j == k;
    if k !in keep {
      assert PrunedAmong(t, ks + [k], keep).rows == Delete(PrunedAmong(t, ks, keep), k).rows;
    } else {
      assert PrunedAmong(t, ks + [k], keep).rows == PrunedAmong(t, ks, keep).rows;
    }
  }

  /** saveAll's pruning loop: every stored step of `pid` whose key is not kept is deleted. */
  method PruneSteps(t: Table<StepRow>, pid: RowId, keep: set<RowId>) returns (u: Table<StepRow>)
    ensures u == Pruned(t, pid, keep)
  {
    var toDelete := StepKeysOf(t, pid);
    u := t;
    PruneNone(t, keep);
    var j := 0;
    while j < |toDelete|
      invariant 0 <= j <= |toDelete|
      invariant u == PrunedAmong(t, toDelete[..j], keep)
    {
      var k := toDelete[j];
      PruneOneMore(t, toDelete[..j], k, keep);
      assert toDelete[..j + 1] == toDelete[..j] + [k];
      if k !in keep {
        u := Delete(u, k);
      }
      j := j + 1;
    }
    assert toDelete[..|toDelete|] == toDelete;
  }

  /* ---------------- importProcess's loops ---------------- */

  /** The step loop: each document step is added to process `pid` under a fresh key, and its old
      id is mapped to that key. */
  method ImportStepRows(t: Table<StepRow>, pid: RowId, s: seq<StepRow>) returns (r: StepImport)
    ensures r == ImportSteps(t, pid, s)
  {
    r := StepImport(t, map[]);
    var i := 0;
    while i < |s|
      invariant 0 <= i <= |s|
      invariant r == ImportSteps(t, pid, s[..i])
    {
      var st := s[i];
      var newId := r.table.nextId;
      var table := Add(r.table, st.(id := Some(newId), processId := pid));
      r := StepImport(table, if st.id.Some? then r.idMap[st.id.value := newId] else r.idMap);
      assert s[..i + 1][..i] == s[..i];
      i := i + 1;
    }
    assert s[..|s|] == s;
  }

  /** The artifact loop: each document artifact is added to process `pid`, attached to the new
      key of its step, without file content. */
  method ImportArtifactRows(t: Table<ArtifactRow>, pid: RowId, m: map<RowId, RowId>, arts: seq<ArtifactRow>)
    returns (u: Table<ArtifactRow>)
    requires forall i :: 0 <= i < |arts| ==> arts[i].stepId in m
    ensures u == ImportArtifacts(t, pid, m, arts)
  {
    u := t;
    var j := 0;
    while j < |arts|
      invariant 0 <= j <= |arts|
      invariant u == ImportArtifacts(t, pid, m, arts[..j])
    {
      var a := arts[j];
      u := Add(u, a.(processId := pid, stepId := m[a.stepId], blob := None).(id := Some(u.nextId)));
      assert arts[..j + 1][..j] == arts[..j];
      j := j + 1;
    }
    assert arts[..|arts|] == arts;
  }

  /* ---------------- saveAll as a whole ---------------- */

  /** `db.processes.update(pid, { updatedAt: now })`. */
  function Touched(t: Table<ProcessRow>, pid: RowId, now: nat): Table<ProcessRow>
  {
    Update(t, pid, (r: ProcessRow) => r.(updatedAt := now))
  }

  /** `db.processes.update(pid, { cloudId })` after a remote create that returned an id. */
  function WithCloudId(t: Table<ProcessRow>, pid: RowId, stored: Option<string>): Table<ProcessRow>
  {
    if stored.Some? then Update(t, pid, (r: ProcessRow) => r.(cloudId := stored)) else t
  }

  /** The process the sync reports on: the listing's entry, or else the stored row. */
  function SyncSubject(listing: seq<ProcessRow>, t: Table<ProcessRow>, pid: RowId): Option<ProcessRow>
  {
    var found := Find(listing, pid);
    if found.Some? then found else if pid in t.rows then Some(t.rows[pid]) else None
  }

  /** The database, the in-memory list, the listing and the remote calls after saveAll. */
  datatype SaveResult = SaveResult(db: Database, steps: seq<StepRow>, listing: seq<ProcessRow>, calls: seq<RemoteCall>)

  /** saveAll on process `pid` as written: the listing is read back after the transaction but
      before the remote create's id is stored, so it never shows that id. */
  function SaveAllAsWritten(db: Database, listing: seq<ProcessRow>, pid: RowId, s: seq<StepRow>,
                            now: nat, apiBase: string, replies: Replies): SaveResult
  {
    var touched := Touched(db.processes, pid, now);
    var saved := SaveSteps(db.steps, pid, s);
    var plan := SyncPlan(apiBase, SyncSubject(listing, touched, pid), saved.steps, replies);
    SaveResult(Database(WithCloudId(touched, pid, plan.storedCloudId), saved.table, db.artifacts),
               saved.steps, Listing(touched), plan.calls)
  }

  /** saveAll with the listing read back once the cloud id is stored. */
  function SaveAllEffect(db: Database, listing: seq<ProcessRow>, pid: RowId, s: seq<StepRow>,
                         now: nat, apiBase: string, replies: Replies): SaveResult
  {
    var r := SaveAllAsWritten(db, listing, pid, s, now, apiBase, replies);
    r.(listing := Listing(r.db.processes))
  }

  /** A table update that keeps every row's id keeps the process table well formed. */
  lemma UpdateKeepsProcesses(t: Table<ProcessRow>, pid: RowId, change: ProcessRow -> ProcessRow)
    requires ProcessTableOk(t) && forall r :: change(r).id == r.id
    ensures ProcessTableOk(Update(t, pid, change)) && Update(t, pid, change).rows.Keys == t.rows.Keys
  {
  }

  /** A listed process is found in the listing as it is stored. */
  lemma FindListed(t: Table<ProcessRow>, pid: RowId)
    requires ProcessTableOk(t) && pid in t.rows
    ensures Find(Listing(t), pid) == Some(t.rows[pid])
  {
    ListingComplete(t);
    ListingRowsStored(t);
    var list := Listing(t);
    assert t.rows[pid] in list;
    var i :| 0 <= i < |list| && list[i] == t.rows[pid];
    assert list[i].id == Some(pid);
  }

  /** saveAll keeps the database well formed and the process's list saved exactly, changes no
      other process's steps and no artifact, and stamps the process with the save time. */
  lemma SaveAllKeepsConsistent(db: Database, listing: seq<ProcessRow>, pid: RowId, s: seq<StepRow>,
                               now: nat, apiBase: string, replies: Replies)
    requires WellFormed(db) && pid in db.processes.rows && SaveReady(db.steps, pid, s)
    ensures var r := SaveAllAsWritten(db, listing, pid, s, now, apiBase, replies);
      && WellFormed(r.db)
      && r.db.processes.rows.Keys == db.processes.rows.Keys
      && r.db.processes.rows[pid].updatedAt == now
      && r.db.processes.rows[pid].name == db.processes.rows[pid].name
      && r.db.artifacts == db.artifacts
      && |r.steps| == |s| && (forall i :: 0 <= i < |s| && s[i].id.Some? ==> r.steps[i].id == s[i].id)
      && SaveReady(r.db.steps, pid, r.steps) && PersistedExactly(r.db.steps, pid, r.steps)
      && OthersUnchanged(db.steps, r.db.steps, pid)
      && StepsStillOwned(db.steps, r.db.steps, pid)
  {
    var touched := Touched(db.processes, pid, now);
    UpdateKeepsProcesses(db.processes, pid, (r: ProcessRow) => r.(updatedAt := now));
    SaveStepsCorrect(db.steps, pid, s);
    var saved := SaveSteps(db.steps, pid, s);
    var plan := SyncPlan(apiBase, SyncSubject(listing, touched, pid), saved.steps, replies);
    if plan.storedCloudId.Some? {
      UpdateKeepsProcesses(touched, pid, (r: ProcessRow) => r.(cloudId := plan.storedCloudId));
    }
  }

  /** As written, a first save of a process that has no cloud id creates it remotely and stores
      the returned id, yet the next save creates it remotely once more. */
  lemma SecondSaveCreatesAgain(db: Database, pid: RowId, s: seq<StepRow>, now1: nat, now2: nat,
                               apiBase: string, c: string, replies2: Replies)
    requires WellFormed(db) && pid in db.processes.rows && db.processes.rows[pid].cloudId.None?
    requires SaveReady(db.steps, pid, s) && apiBase != ""
    ensures var r1 := SaveAllAsWritten(db, Listing(db.processes), pid, s, now1, apiBase, Replies(Some(c), true));
      var r2 := SaveAllAsWritten(r1.db, r1.listing, pid, r1.steps, now2, apiBase, replies2);
      && pid in r1.db.processes.rows && r1.db.processes.rows[pid].cloudId == Some(c)
      && CreateCount(r1.calls) == 1
      && CreateCount(r2.calls) == 1
  {
    FindListed(db.processes, pid);
    var touched := Touched(db.processes, pid, now1);
    UpdateKeepsProcesses(db.processes, pid, (r: ProcessRow) => r.(updatedAt := now1));
    FindListed(touched, pid);
  }

  /** With the listing read back after the id is stored, the next save updates the remote
      process under that id and creates nothing. */
  lemma SecondSaveUpdates(db: Database, pid: RowId, s: seq<StepRow>, now1: nat, now2: nat,
                          apiBase: string, c: string, replies2: Replies)
    requires WellFormed(db) && pid in db.processes.rows && db.processes.rows[pid].cloudId.None?
    requires SaveReady(db.steps, pid, s) && apiBase != "" && c != ""
    ensures var r1 := SaveAllEffect(db, Listing(db.processes), pid, s, now1, apiBase, Replies(Some(c), true));
      var r2 := SaveAllEffect(r1.db, r1.listing, pid, r1.steps, now2, apiBase, replies2);
      && CreateCount(r1.calls) == 1
      && CreateCount(r2.calls) == 0 && 1 <= |r2.calls|
      && r2.calls[0] == UpdateProcess(c, db.processes.rows[pid].name)
  {
    FindListed(db.processes, pid);
    var touched := Touched(db.processes, pid, now1);
    UpdateKeepsProcesses(db.processes, pid, (r: ProcessRow) => r.(updatedAt := now1));
    var stored := WithCloudId(touched, pid, Some(c));
    UpdateKeepsProcesses(touched, pid, (r: ProcessRow) => r.(cloudId := Some(c)));
    FindListed(stored, pid);
  }
}
