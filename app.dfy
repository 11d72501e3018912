/**
 * The editor component (src/App.tsx): its state, and one method per event handler. Each handler
 * runs to completion before the next one starts; inside a handler, component state reads the
 * value it had when the handler started, and the database is read as it is at that moment.
 */
module Editor {
  import opened Wrappers
  import opened Tables
  import opened Records
  import opened Text
  import opened History
  import opened StepList
  import opened Persistence
  import opened Transfer
  import opened Sync
  import opened Handlers
  import opened Components

  /** A file offered for download: the document and its file name. */
  datatype Download = Download(doc: ExportDoc, fileName: string)

  /** The name createProcess gives the `n`-th process. */
  function NewProcessName(n: nat): string
  {
    "Untitled Process " + NatToString(n)
  }

  /** Different process numbers give different names. */
  lemma NewProcessNamesDistinct(m: nat, n: nat)
    ensures NewProcessName(m) == NewProcessName(n) ==> m == n
  {
    var p := "Untitled Process ";
    if NewProcessName(m) == NewProcessName(n) {
      assert NatToString(m) == NewProcessName(m)[|p|..];
      assert NatToString(n) == NewProcessName(n)[|p|..];
      NatToStringInjective(m, n);
    }
  }

  /** `{ tools }`, the patch the tools chip input hands updateStep. */
  function ToolsPatch(tools: seq<string>): Patch
  {
    Patch(None, None, Some(tools), None, None, None, None, None, None, None)
  }

  /** What the editor keeps true between events: the database is well formed, the history is
      within its bound, and the open process is stored, with its list and every list undo or
      redo can restore ready to be saved into it. */
  ghost predicate Consistent(db: Database, active: Option<RowId>, s: Session)
  {
    && WellFormed(db)
    && |s.history| <= MAX_HISTORY
    && (active.Some? ==> active.value in db.processes.rows && SessionReady(db.steps, active.value, s))
  }

  /** An edit computed from an older ready list `start` keeps the editor consistent once
      `start` is pushed onto the history. */
  lemma StaleEditConsistent(db: Database, active: Option<RowId>, s: Session, start: Snapshot, next: Snapshot)
    requires Consistent(db, active, s)
    requires active.Some? ==> SaveReady(db.steps, active.value, start) && SaveReady(db.steps, active.value, next)
    ensures Consistent(db, active, Session(next, Pushed(s.history, start), []))
  {
    if active.Some? {
      RecordReady(db.steps, active.value, Session(start, s.history, s.future), next);
    }
  }

  /** `db.processes.update(id, { name, updatedAt: now })`. */
  function Renamed(t: Table<ProcessRow>, id: RowId, name: string, now: nat): Table<ProcessRow>
  {
    Update(t, id, (r: ProcessRow) => r.(name := name, updatedAt := now))
  }

  /** A new process table that keeps every stored process keeps the editor consistent. */
  lemma ProcessesGrow(db: Database, procs: Table<ProcessRow>, active: Option<RowId>, s: Session)
    requires Consistent(db, active, s) && ProcessTableOk(procs)
    requires db.processes.rows.Keys <= procs.rows.Keys
    ensures Consistent(db.(processes := procs), active, s)
  {
  }

  /** The process createProcess stores is a fresh one, and storing it keeps the editor consistent. */
  lemma CreatedOk(db: Database, row: ProcessRow, active: Option<RowId>, s: Session)
    requires Consistent(db, active, s) && row.id == Some(db.processes.nextId)
    ensures Consistent(db.(processes := Add(db.processes, row)), active, s)
    ensures active != Some(db.processes.nextId)
  {
    ProcessesGrow(db, Add(db.processes, row), active, s);
  }

  /** Renaming keeps the editor consistent. */
  lemma RenamedOk(db: Database, id: RowId, name: string, now: nat, active: Option<RowId>, s: Session)
    requires Consistent(db, active, s)
    ensures Consistent(db.(processes := Renamed(db.processes, id, name, now)), active, s)
  {
    UpdateKeepsProcesses(db.processes, id, (r: ProcessRow) => r.(name := name, updatedAt := now));
    ProcessesGrow(db, Renamed(db.processes, id, name, now), active, s);
  }

  /** saveAll keeps the editor consistent, with the saved list as the current one. */
  lemma SaveAllOk(db: Database, listing: seq<ProcessRow>, pid: RowId, s: Session, now: nat,
                  apiBase: string, replies: Replies)
    requires Consistent(db, Some(pid), s)
    ensures var r := SaveAllAsWritten(db, listing, pid, s.steps, now, apiBase, replies);
      && Consistent(r.db, Some(pid), s.(steps := r.steps))
      && |r.steps| == |s.steps| && AllSaved(r.steps)
  {
    var r := SaveAllAsWritten(db, listing, pid, s.steps, now, apiBase, replies);
    SaveAllKeepsConsistent(db, listing, pid, s.steps, now, apiBase, replies);
    SessionCarries(db.steps, r.db.steps, pid, s);
  }

  /** Deleting a process keeps the editor consistent when the open process is another one. */
  lemma DeletedOk(db: Database, id: RowId, active: Option<RowId>, s: Session)
    requires Consistent(db, active, s) && active != Some(id)
    ensures Consistent(CascadeDeleted(db, id), active, s)
  {
    CascadeDeleteSpec(db, id);
    if active.Some? {
      SessionCarries(db.steps, CascadeDeleted(db, id).steps, active.value, s);
    }
  }

  /** Importing keeps the editor consistent. */
  lemma ImportedOk(db: Database, doc: ExportDoc, now: nat, active: Option<RowId>, s: Session)
    requires Consistent(db, active, s) && ArtifactsResolve(doc)
    ensures Consistent(ImportDocument(db, doc, now).db, active, s)
  {
    ImportKeepsWellFormed(db, doc, now);
    ImportDocumentSpec(db, doc, now);
    if active.Some? {
      SessionCarries(db.steps, ImportDocument(db, doc, now).db.steps, active.value, s);
    }
  }

  /** importProcess's two loops, with the process row added before them, build exactly the
      imported database, and every document artifact finds its step's new id. */
  lemma ImportParts(db: Database, doc: ExportDoc, now: nat)
    requires Issued(db.steps) && ArtifactsResolve(doc)
    ensures var pid := db.processes.nextId;
      var st := ImportSteps(db.steps, pid, doc.steps);
      && (forall i :: 0 <= i < |doc.artifacts| ==> doc.artifacts[i].stepId in st.idMap)
      && ImportDocument(db, doc, now).db ==
           Database(Add(db.processes, ImportedProcess(doc.process, now).(id := Some(pid))),
                    st.table, ImportArtifacts(db.artifacts, pid, st.idMap, doc.artifacts))
  {
    ImportStepsSpec(db.steps, db.processes.nextId, doc.steps);
  }

  /** saveAll's loops and sync, each computed on its own, make up its effect, and what they store
      keeps the editor consistent. */
  lemma SaveAllParts(db: Database, listing: seq<ProcessRow>, pid: RowId, s: Session, now: nat,
                     apiBase: string, replies: Replies, upserted: Table<StepRow>, saved: seq<StepRow>,
                     pruned: Table<StepRow>, plan: SyncOutcome)
    requires Consistent(db, Some(pid), s)
    requires Saved(upserted, saved) == Upserted(db.steps, s.steps)
    requires pruned == Pruned(upserted, pid, IdSet(saved))
    requires plan == SyncPlan(apiBase, SyncSubject(listing, Touched(db.processes, pid, now), pid), saved, replies)
    ensures var touched := Touched(db.processes, pid, now);
      var stored := WithCloudId(touched, pid, plan.storedCloudId);
      && SaveAllAsWritten(db, listing, pid, s.steps, now, apiBase, replies) ==
           SaveResult(Database(stored, pruned, db.artifacts), saved, Listing(touched), plan.calls)
      && Consistent(Database(stored, pruned, db.artifacts), Some(pid), s.(steps := saved))
  {
    SaveAllOk(db, listing, pid, s, now, apiBase, replies);
  }

  /** Removing an artifact keeps the editor consistent. */
  lemma ArtifactRemovedOk(db: Database, id: RowId, active: Option<RowId>, s: Session)
    requires Consistent(db, active, s)
    ensures Consistent(db.(artifacts := Delete(db.artifacts, id)), active, s)
  {
  }

  class App {
    /** The backend's base URL; empty when the editor runs offline. */
    const apiBase: string
    /** The browser database. */
    var db: Database
    /** The clock behind `nowISO()`, in ticks. */
    var clock: nat
    /** The process listing, most recently updated first. */
    var processes: seq<ProcessRow>
    var activeId: Option<RowId>
    var steps: seq<StepRow>
    var history: seq<Snapshot>
    var future: seq<Snapshot>
    var artifactsByStep: map<RowId, seq<ArtifactRow>>
    var dirty: bool
    /** Every call made to the backend, in order. */
    var remoteLog: seq<RemoteCall>

    function UndoState(): Session
      reads this`steps, this`history, this`future
    {
      Session(steps, history, future)
    }

    ghost predicate Valid()
      reads this`db, this`activeId, this`steps, this`history, this`future
    {
      Consistent(db, activeId, UndoState())
    }

    /** What the load effect leaves behind for the process `id`: its steps in `index` order, its
        artifacts grouped by step, and nothing to undo or redo. */
    ghost predicate Shows(id: Option<RowId>)
      reads this`db, this`activeId, this`steps, this`history, this`future, this`artifactsByStep
    {
      && activeId == id
      && history == [] && future == []
      && (id.None? ==> steps == [] && artifactsByStep == map[])
      && (id.Some? ==>
            steps == LoadSteps(db.steps, id.value)
            && GroupedBy(artifactsByStep, ProcessArtifacts(db.artifacts, id.value)))
    }

    /** The artifacts listed under step `sid`. */
    function GroupOf(sid: RowId): seq<ArtifactRow>
      reads this`artifactsByStep
    {
      if sid in artifactsByStep then artifactsByStep[sid] else []
    }

    /** Mounting: the listing is read and its first process is opened. */
    constructor (apiBase: string, db0: Database, clock0: nat)
      requires WellFormed(db0)
      ensures Valid()
      ensures this.apiBase == apiBase && db == db0 && clock == clock0
      ensures processes == Listing(db0.processes)
      ensures Shows(FirstId(processes))
      ensures !dirty && remoteLog == []
    {
      this.apiBase := apiBase;
      db := db0;
      clock := clock0;
      processes := Listing(db0.processes);
      activeId := None;
      steps := [];
      history := [];
      future := [];
      artifactsByStep := map[];
      dirty := false;
      remoteLog := [];
      new;
      ListingRowsStored(db0.processes);
      Select(FirstId(processes));
    }

    /** `setActiveId(id)` and the effect that runs when the open process changes. */
    method Select(id: Option<RowId>)
      requires WellFormed(db) && |history| <= MAX_HISTORY
      requires id.Some? ==> id.value in db.processes.rows
      requires id == activeId ==> Valid()
      modifies this`activeId, this`steps, this`history, this`future, this`artifactsByStep
      ensures Valid()
      ensures id != old(activeId) ==> Shows(id)
      ensures id == old(activeId) ==> UndoState() == old(UndoState()) && artifactsByStep == old(artifactsByStep)
      ensures activeId == id
    {
      if id == activeId {
        return;
      }
      activeId := id;
      history := [];
      future := [];
      if id.None? {
        steps := [];
        artifactsByStep := map[];
      } else {
        var pid := id.value;
        LoadedReady(db.steps, pid);
        steps := LoadSteps(db.steps, pid);
        artifactsByStep := GroupByStep(ProcessArtifacts(db.artifacts, pid));
      }
    }

    /** undo (also Ctrl/Cmd+Z). */
    method Undo()
      requires Valid()
      modifies this`steps, this`history, this`future, this`dirty
      ensures Valid()
      ensures UndoState() == History.Undo(old(UndoState()))
      ensures dirty == (old(dirty) || old(history) != [])
    {
      if history == [] {
        return;
      }
      if activeId.Some? {
        UndoReady(db.steps, activeId.value, UndoState());
      }
      future := [steps] + future;
      steps := history[0];
      history := history[1..];
      dirty := true;
    }

    /** redo (also Ctrl/Cmd+Shift+Z). */
    method Redo()
      requires Valid()
      modifies this`steps, this`history, this`future, this`dirty
      ensures Valid()
      ensures UndoState() == History.Redo(old(UndoState()))
      ensures dirty == (old(dirty) || old(future) != [])
    {
      if future == [] {
        return;
      }
      if activeId.Some? {
        RedoReady(db.steps, activeId.value, UndoState());
      }
      history := Pushed(history, steps);
      steps := future[0];
      future := future[1..];
      dirty := true;
    }

    /** The keyboard shortcut: Ctrl or Cmd with `z` undoes, with Shift as well it redoes. */
    method KeyDown(commandKey: bool, shift: bool, key: string)
      requires Valid()
      modifies this`steps, this`history, this`future, this`dirty
      ensures Valid()
      ensures commandKey && (key == "z" || key == "Z") && !shift ==>
        UndoState() == History.Undo(old(UndoState())) && dirty == (old(dirty) || old(history) != [])
      ensures commandKey && (key == "z" || key == "Z") && shift ==>
        UndoState() == History.Redo(old(UndoState())) && dirty == (old(dirty) || old(future) != [])
      ensures !(commandKey && (key == "z" || key == "Z")) ==> UndoState() == old(UndoState()) && dirty == old(dirty)
    {
      if commandKey && (key == "z" || key == "Z") {
        if shift {
          Redo();
        } else {
          Undo();
        }
      }
    }

    /** addStep: appends a blank step to the open process. */
    method AddStep()
      requires Valid()
      modifies this`steps, this`history, this`future, this`dirty
      ensures Valid()
      ensures activeId.None? ==> UndoState() == old(UndoState()) && dirty == old(dirty)
      ensures activeId.Some? ==>
        UndoState() == Record(old(UndoState()), Appended(old(steps), activeId.value)) && dirty
    {
      if activeId.None? {
        return;
      }
      var pid := activeId.value;
      var next := Appended(steps, pid);
      AppendedReady(db.steps, pid, steps);
      RecordReady(db.steps, pid, UndoState(), next);
      history := Pushed(history, steps);
      future := [];
      steps := next;
      dirty := true;
    }

    /** updateStep: applies a patch to step `i`. */
    method UpdateStep(i: int, p: Patch)
      requires Valid() && 0 <= i < |steps|
      modifies this`steps, this`history, this`future, this`dirty
      ensures Valid()
      ensures UndoState() == Record(old(UndoState()), UpdatedSteps(old(steps), i, p)) && dirty
    {
      var next := UpdateCopy(steps, i, p);
      if activeId.Some? {
        UpdatedReady(db.steps, activeId.value, steps, i, p);
        RecordReady(db.steps, activeId.value, UndoState(), next);
      }
      history := Pushed(history, steps);
      future := [];
      steps := next;
      dirty := true;
    }

    /** The tools chip input of step `i` receiving `typed` (its onChange). Text with a comma
        makes one updateStep call per new piece before the last comma, every call built from
        the list and the chips as they were when the text arrived; the text after the last
        comma, or all of the text when it has none, is left pending in the input. */
    method TypeTools(i: int, typed: string) returns (pending: string)
      requires Valid() && 0 <= i < |steps|
      modifies this`steps, this`history, this`future, this`dirty
      ensures Valid()
      ensures var st := OnChange(ChipState(old(steps[i].tools), ""), typed);
        pending == st.input && |steps| == old(|steps|) && steps[i].tools == st.values
      ensures var calls := ChangeCalls(old(steps[i].tools), typed);
        && (calls == [] ==> UndoState() == old(UndoState()) && dirty == old(dirty))
        && (calls != [] ==>
              dirty && UndoState() ==
                RecordStale(old(UndoState()), UpdatedSteps(old(steps), i, ToolsPatch(calls[|calls| - 1])), |calls|))
    {
      var calls := ChangeCalls(steps[i].tools, typed);
      ChangeCallsShown(steps[i].tools, typed);
      pending := if ',' in typed then LastPiece(typed, ',') else typed;
      UpdateStale(i, calls);
    }

    /** updateStep(i, { tools }) once for each list in `calls`, all within one handler: every
        call reads the list the handler started with. */
    method UpdateStale(i: int, calls: seq<seq<string>>)
      requires Valid() && 0 <= i < |steps|
      modifies this`steps, this`history, this`future, this`dirty
      ensures Valid()
      ensures calls == [] ==> UndoState() == old(UndoState()) && dirty == old(dirty)
      ensures calls != [] ==>
        dirty && UndoState() ==
          RecordStale(old(UndoState()), UpdatedSteps(old(steps), i, ToolsPatch(calls[|calls| - 1])), |calls|)
    {
      var start := steps;
      var h, f, cur, d := history, future, steps, dirty;
      var n := 0;
      while n < |calls|
        invariant 0 <= n <= |calls|
        invariant h == PushedTimes(old(history), start, n)
        invariant n == 0 ==> cur == start && f == old(future) && d == old(dirty)
        invariant n > 0 ==> d && f == [] && cur == UpdatedSteps(start, i, ToolsPatch(calls[n - 1]))
        invariant Consistent(db, activeId, Session(cur, h, f))
      {
        var next := UpdateCopy(start, i, ToolsPatch(calls[n]));
        if activeId.Some? {
          UpdatedReady(db.steps, activeId.value, start, i, ToolsPatch(calls[n]));
        }
        StaleEditConsistent(db, activeId, Session(cur, h, f), start, next);
        h, f, cur, d := Pushed(h, start), [], next, true;
        n := n + 1;
      }
      SetUndoState(Session(cur, h, f), d);
    }

    /** Stores a consistent session and the dirty flag. */
    method SetUndoState(s: Session, d: bool)
      requires Consistent(db, activeId, s)
      modifies this`steps, this`history, this`future, this`dirty
      ensures Valid() && UndoState() == s && dirty == d
    {
      steps, history, future, dirty := s.steps, s.history, s.future, d;
    }

    /** moveStep: swaps step `i` with its neighbour in direction `dir`; nothing happens at either
        end of the list. */
    method MoveStep(i: int, dir: int)
      requires Valid() && (dir == -1 || dir == 1) && 0 <= i < |steps|
      modifies this`steps, this`history, this`future, this`dirty
      ensures Valid()
      ensures !(0 <= i + dir < old(|steps|)) ==> UndoState() == old(UndoState()) && dirty == old(dirty)
      ensures 0 <= i + dir < old(|steps|) ==>
        UndoState() == Record(old(UndoState()), Moved(old(steps), i, dir)) && dirty
    {
      var j := i + dir;
      if j < 0 || j >= |steps| {
        return;
      }
      var next := Moved(steps, i, dir);
      if activeId.Some? {
        MovedReady(db.steps, activeId.value, steps, i, dir);
        RecordReady(db.steps, activeId.value, UndoState(), next);
      }
      history := Pushed(history, steps);
      future := [];
      steps := next;
      dirty := true;
    }

    /** Whether step `i` is a saved step with artifacts, so that removing it asks first. */
    function HasArtifacts(i: int): bool
      reads this`steps, this`artifactsByStep
    {
      0 <= i < |steps| && steps[i].id.Some? && |GroupOf(steps[i].id.value)| > 0
    }

    /** removeStep: removes step `i`; `confirmed` is the answer to the question asked when the
        step has artifacts. */
    method RemoveStep(i: int, confirmed: bool)
      requires Valid()
      modifies this`steps, this`history, this`future, this`dirty
      ensures Valid()
      ensures old(HasArtifacts(i)) && !confirmed ==> UndoState() == old(UndoState()) && dirty == old(dirty)
      ensures !(old(HasArtifacts(i)) && !confirmed) ==>
        UndoState() == Record(old(UndoState()), Removed(old(steps), i)) && dirty
    {
      if HasArtifacts(i) && !confirmed {
        return;
      }
      var next := Removed(steps, i);
      if activeId.Some? {
        RemovedReady(db.steps, activeId.value, steps, i);
        RecordReady(db.steps, activeId.value, UndoState(), next);
      }
      history := Pushed(history, steps);
      future := [];
      steps := next;
      dirty := true;
    }

    /** createProcess: a new process named after the listing's length, created remotely first
        when a backend is configured (`reply` is the id it returns, if any), then opened. */
    method CreateProcess(reply: Option<string>)
      requires Valid()
      modifies this`remoteLog, this`clock, this`db, this`processes
      modifies this`activeId, this`steps, this`history, this`future, this`artifactsByStep
      ensures Valid()
      ensures clock == old(clock) + 1
      ensures db == old(db).(processes := Add(old(db.processes),
        ProcessRow(Some(old(db.processes.nextId)), NewProcessName(|old(processes)| + 1), Some(""), clock, clock,
                   if apiBase != "" then reply else None)))
      ensures processes == Listing(db.processes)
      ensures Shows(Some(old(db.processes.nextId)))
      ensures remoteLog == old(remoteLog) +
        (if apiBase != "" then [RemoteCall.CreateProcess(NewProcessName(|old(processes)| + 1))] else [])
    {
      var id := AddProcess(reply);
      Select(Some(id));
    }

    /** The part of createProcess before the new process is opened. */
    method AddProcess(reply: Option<string>) returns (id: RowId)
      requires Valid()
      modifies this`remoteLog, this`clock, this`db, this`processes
      ensures Valid()
      ensures var name := NewProcessName(|old(processes)| + 1);
        var cloudId := if apiBase != "" then reply else None;
        && id == old(db.processes.nextId) && activeId != Some(id) && id in db.processes.rows
        && clock == old(clock) + 1
        && db == old(db).(processes := Add(old(db.processes), ProcessRow(Some(id), name, Some(""), clock, clock, cloudId)))
        && processes == Listing(db.processes)
        && remoteLog == old(remoteLog) + (if apiBase != "" then [RemoteCall.CreateProcess(name)] else [])
    {
      var name := NewProcessName(|processes| + 1);
      var cloudId: Option<string> := None;
      if apiBase != "" {
        remoteLog := remoteLog + [RemoteCall.CreateProcess(name)];
        cloudId := reply;
      }
      clock := clock + 1;
      id := db.processes.nextId;
      var row := ProcessRow(Some(id), name, Some(""), clock, clock, cloudId);
      CreatedOk(db, row, activeId, UndoState());
      db := db.(processes := Add(db.processes, row));
      processes := Listing(db.processes);
    }

    /** renameProcess: renames the stored process and stamps it; a process the backend knows is
        renamed there too. */
    method RenameProcess(id: RowId, name: string)
      requires Valid()
      modifies this`clock, this`db, this`processes, this`remoteLog
      ensures Valid()
      ensures clock == old(clock) + 1
      ensures db == old(db).(processes := Renamed(old(db.processes), id, name, clock))
      ensures processes == Listing(db.processes)
      ensures var known := id in old(db.processes.rows) && Truthy(old(db.processes.rows[id].cloudId));
        remoteLog == old(remoteLog) +
          (if apiBase != "" && known then [UpdateProcess(old(db.processes.rows[id].cloudId.value), name)] else [])
    {
      var p := if id in db.processes.rows then Some(db.processes.rows[id]) else None;
      clock := clock + 1;
      RenamedOk(db, id, name, clock, activeId, UndoState());
      db := db.(processes := Renamed(db.processes, id, name, clock));
      processes := Listing(db.processes);
      if apiBase != "" && p.Some? && Truthy(p.value.cloudId) {
        remoteLog := remoteLog + [UpdateProcess(p.value.cloudId.value, name)];
      }
    }

    /** deleteProcess: once confirmed, removes the process with its steps and artifacts and
        opens the first process left in the listing. */
    method DeleteProcess(id: RowId, confirmed: bool)
      requires Valid()
      modifies this`db, this`processes, this`activeId, this`steps, this`history, this`future, this`artifactsByStep
      ensures Valid()
      ensures !confirmed ==>
        && db == old(db) && processes == old(processes) && activeId == old(activeId)
        && UndoState() == old(UndoState()) && artifactsByStep == old(artifactsByStep)
      ensures confirmed ==>
        && db == CascadeDeleted(old(db), id)
        && processes == Listing(db.processes)
        && activeId == FirstId(processes)
        && (activeId != old(activeId) ==> Shows(activeId))
        && (activeId == old(activeId) ==> UndoState() == old(UndoState()) && artifactsByStep == old(artifactsByStep))
    {
      if !confirmed {
        return;
      }
      CascadeDeleteSpec(db, id);
      var after := CascadeDeleted(db, id);
      var listing := Listing(after.processes);
      ListingRowsStored(after.processes);
      var next := FirstId(listing);
      if next == activeId {
        DeletedOk(db, id, activeId, UndoState());
      }
      db := after;
      processes := listing;
      Select(next);
    }

    /** saveAll: stores the open process's list (see SaveAllAsWritten), marks the editor clean
        and, when a backend is configured, syncs the process and its steps. The listing is read
        back before the cloud id the backend returns is stored. */
    method SaveAll(replies: Replies)
      requires Valid()
      modifies this`clock, this`db, this`steps, this`dirty, this`remoteLog, this`processes
      ensures Valid()
      ensures old(activeId).None? ==>
        db == old(db) && steps == old(steps) && processes == old(processes) && clock == old(clock)
        && dirty == old(dirty) && remoteLog == old(remoteLog)
      ensures old(activeId).Some? ==>
        var r := SaveAllAsWritten(old(db), old(processes), old(activeId).value, old(steps), old(clock) + 1, apiBase, replies);
        && clock == old(clock) + 1
        && db == r.db && steps == r.steps && processes == r.listing
        && remoteLog == old(remoteLog) + r.calls && !dirty
    {
      if activeId.None? {
        return;
      }
      var now := clock + 1;
      var after, saved, listing, calls := SaveTransaction(now, replies);
      Store(now, after, saved, listing, calls);
    }

    /** The end of saveAll: the clock has moved to `now`, the database and the list are stored,
        the editor is clean, the listing read during the transaction is shown and the remote
        calls are logged. */
    method Store(now: nat, after: Database, saved: seq<StepRow>, listing: seq<ProcessRow>, calls: seq<RemoteCall>)
      requires Consistent(after, activeId, Session(saved, history, future))
      modifies this`clock, this`db, this`steps, this`dirty, this`remoteLog, this`processes
      ensures Valid()
      ensures clock == now && db == after && steps == saved && !dirty
      ensures remoteLog == old(remoteLog) + calls && processes == listing
    {
      clock := now;
      processes := listing;
      remoteLog := remoteLog + calls;
      dirty := false;
      db := after;
      steps := saved;
    }

    /** saveAll's transaction and sync on the open process, at time `now`, without storing
        anything yet: the database to store, the saved list, the listing read back after the
        transaction and the remote calls made. */
    method SaveTransaction(now: nat, replies: Replies)
      returns (after: Database, saved: seq<StepRow>, listing: seq<ProcessRow>, calls: seq<RemoteCall>)
      requires Valid() && activeId.Some?
      ensures Consistent(after, activeId, Session(saved, history, future))
      ensures SaveAllAsWritten(db, processes, activeId.value, steps, now, apiBase, replies) ==
        SaveResult(after, saved, listing, calls)
    {
      var pid := activeId.value;
      // the transaction
      var touched := Touched(db.processes, pid, now);
      var upserted, s := UpsertSteps(db.steps, steps);
      var pruned := PruneSteps(upserted, pid, IdSet(s));
      // the sync
      var plan := SyncPlan(apiBase, SyncSubject(processes, touched, pid), s, replies);
      SaveAllParts(db, processes, pid, UndoState(), now, apiBase, replies, upserted, s, pruned, plan);
      listing := Listing(touched);
      after := Database(WithCloudId(touched, pid, plan.storedCloudId), pruned, db.artifacts);
      saved := s;
      calls := plan.calls;
    }

    /** onDropFiles: attaches files to step `i` of the open process, saving first when the step
        has never been saved. */
    method DropFiles(i: int, kind: ArtifactKind, files: seq<DroppedFile>, replies: Replies)
      requires Valid() && 0 <= i < |steps|
      modifies this`clock, this`db, this`steps, this`dirty, this`remoteLog, this`processes, this`artifactsByStep
      ensures Valid()
      ensures old(activeId).None? ==>
        db == old(db) && steps == old(steps) && artifactsByStep == old(artifactsByStep) && remoteLog == old(remoteLog)
        && clock == old(clock) && dirty == old(dirty) && processes == old(processes)
      ensures old(activeId).Some? && old(steps[i].id).Some? ==>
        var sid := old(steps[i].id.value);
        var added := NewArtifacts(old(db.artifacts), old(activeId).value, sid, kind, files);
        && steps == old(steps) && db.processes == old(db.processes) && db.steps == old(db.steps)
        && AddedInOrder(old(db.artifacts), db.artifacts, added)
        && artifactsByStep == old(artifactsByStep)[sid := old(GroupOf(sid)) + added]
        && remoteLog == old(remoteLog)
        && clock == old(clock) && dirty == old(dirty) && processes == old(processes)
      ensures old(activeId).Some? && old(steps[i].id).None? ==>
        var r := SaveAllAsWritten(old(db), old(processes), old(activeId).value, old(steps), old(clock) + 1, apiBase, replies);
        && |r.steps| == old(|steps|) && r.steps[i].id.Some?
        && var sid := r.steps[i].id.value;
        var added := NewArtifacts(old(db.artifacts), old(activeId).value, sid, kind, files);
        && steps == r.steps && db.processes == r.db.processes && db.steps == r.db.steps
        && AddedInOrder(old(db.artifacts), db.artifacts, added)
        && artifactsByStep == old(artifactsByStep)[sid := old(GroupOf(sid)) + added]
        && remoteLog == old(remoteLog) + r.calls
        && clock == old(clock) + 1 && !dirty && processes == r.listing
    {
      if activeId.None? {
        return;
      }
      if steps[i].id.None? {
        SaveAndAttach(i, kind, files, replies);
      } else {
        AttachFiles(steps[i].id.value, kind, files);
      }
    }

    /** onDropFiles on a step that was never saved: saveAll first, then the files are attached
        to the id the step has been given. */
    method SaveAndAttach(i: int, kind: ArtifactKind, files: seq<DroppedFile>, replies: Replies)
      requires Valid() && activeId.Some? && 0 <= i < |steps| && steps[i].id.None?
      modifies this`clock, this`db, this`steps, this`dirty, this`remoteLog, this`processes, this`artifactsByStep
      ensures Valid()
      ensures old(activeId).Some? && old(steps[i].id).None? ==>
        var r := SaveAllAsWritten(old(db), old(processes), old(activeId).value, old(steps), old(clock) + 1, apiBase, replies);
        && |r.steps| == old(|steps|) && r.steps[i].id.Some?
        && var sid := r.steps[i].id.value;
        var added := NewArtifacts(old(db.artifacts), old(activeId).value, sid, kind, files);
        && steps == r.steps && db.processes == r.db.processes && db.steps == r.db.steps
        && AddedInOrder(old(db.artifacts), db.artifacts, added)
        && artifactsByStep == old(artifactsByStep)[sid := old(GroupOf(sid)) + added]
        && remoteLog == old(remoteLog) + r.calls
        && clock == old(clock) + 1 && !dirty && processes == r.listing
    {
      SaveAllOk(db, processes, activeId.value, UndoState(), clock + 1, apiBase, replies);
      SaveAll(replies);
      AttachFiles(steps[i].id.value, kind, files);
    }

    /** The part of onDropFiles after the step is saved: one artifact per file, listed under the
        step. */
    method AttachFiles(sid: RowId, kind: ArtifactKind, files: seq<DroppedFile>)
      requires Valid() && activeId.Some?
      modifies this`db, this`artifactsByStep
      ensures Valid()
      ensures var added := NewArtifacts(old(db.artifacts), activeId.value, sid, kind, files);
        && db.processes == old(db.processes) && db.steps == old(db.steps)
        && AddedInOrder(old(db.artifacts), db.artifacts, added)
        && artifactsByStep == old(artifactsByStep)[sid := old(GroupOf(sid)) + added]
    {
      var u, created := AddArtifacts(db.artifacts, activeId.value, sid, kind, files);
      AddedArtifactsOk(db, u, created, activeId.value);
      db := db.(artifacts := u);
      artifactsByStep := artifactsByStep[sid := GroupOf(sid) + created];
    }

    /** removeArtifact: deletes the artifact and takes it off its step's list. */
    method RemoveArtifact(a: ArtifactRow)
      requires Valid() && a.id.Some?
      modifies this`db, this`artifactsByStep
      ensures Valid()
      ensures db == old(db).(artifacts := Delete(old(db.artifacts), a.id.value))
      ensures artifactsByStep == old(artifactsByStep)[a.stepId := WithoutArtifact(old(GroupOf(a.stepId)), a.id)]
    {
      ArtifactRemovedOk(db, a.id.value, activeId, UndoState());
      db := db.(artifacts := Delete(db.artifacts, a.id.value));
      artifactsByStep := artifactsByStep[a.stepId := WithoutArtifact(GroupOf(a.stepId), a.id)];
    }

    /** exportProcess: the open process as a document, offered under a name derived from the
        process name. */
    method ExportProcess() returns (d: Option<Download>)
      ensures activeId.None? ==> d.None?
      ensures activeId.Some? ==> d.Some? && d.value.doc == Exported(db, activeId.value)
      ensures activeId.Some? ==> d.Some? && d.value.fileName == ExportFileName(d.value.doc.process)
    {
      if activeId.None? {
        return None;
      }
      var doc := Exported(db, activeId.value);
      return Some(Download(doc, ExportFileName(doc.process)));
    }

    /** importProcess: adds the document as a new process and refreshes the listing; the open
        process stays open. */
    method ImportProcess(doc: ExportDoc)
      requires Valid() && ArtifactsResolve(doc)
      modifies this`clock, this`db, this`processes
      ensures Valid()
      ensures clock == old(clock) + 1
      ensures db == ImportDocument(old(db), doc, clock).db
      ensures processes == Listing(db.processes)
    {
      var now := clock + 1;
      var after := ImportRows(now, doc);
      StoreProcesses(now, after);
    }

    /** The end of a handler that changes the database but not the open list: the clock has moved
        to `now`, the database is stored and the listing is read back. */
    method StoreProcesses(now: nat, after: Database)
      requires Consistent(after, activeId, UndoState())
      modifies this`clock, this`db, this`processes
      ensures Valid() && clock == now && db == after && processes == Listing(after.processes)
    {
      clock := now;
      db := after;
      processes := Listing(after.processes);
    }

    /** importProcess's transaction at time `now`: the process row, then the steps with fresh
        ids, then the artifacts pointing at them, without storing anything yet. */
    method ImportRows(now: nat, doc: ExportDoc) returns (after: Database)
      requires Valid() && ArtifactsResolve(doc)
      ensures after == ImportDocument(db, doc, now).db
      ensures Consistent(after, activeId, UndoState())
    {
      ImportedOk(db, doc, now, activeId, UndoState());
      ImportParts(db, doc, now);
      var pid := db.processes.nextId;
      var procs := Add(db.processes, ImportedProcess(doc.process, now).(id := Some(pid)));
      var st := ImportStepRows(db.steps, pid, doc.steps);
      var arts := ImportArtifactRows(db.artifacts, pid, st.idMap, doc.artifacts);
      after := Database(procs, st.table, arts);
    }
  }
}
