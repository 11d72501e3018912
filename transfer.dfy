/**
 * Exporting a process to a JSON document and importing such a document as a new process. The
 * document is modelled as a value; parsing and printing JSON are not part of this model.
 */
module Transfer {
  import opened Wrappers
  import opened Tables
  import opened Records
  import opened Text
  import opened Persistence

  /** The exported document `{process, steps, artifacts}`. */
  datatype ExportDoc = ExportDoc(process: Option<ProcessRow>, steps: seq<StepRow>, artifacts: seq<ArtifactRow>)

  /* ---------------- Export ---------------- */

  /** `artifacts.where({processId: pid}).toArray()`, in key order. */
  function ArtifactKeysOf(t: Table<ArtifactRow>, pid: RowId): (ks: seq<RowId>)
    ensures forall k :: k in ks <==> k in t.rows && k < t.nextId && t.rows[k].processId == pid
  {
    Where(Keys(t), t.rows, (a: ArtifactRow) => a.processId == pid)
  }

  function ProcessArtifacts(t: Table<ArtifactRow>, pid: RowId): seq<ArtifactRow>
  {
    RowsAt(t.rows, ArtifactKeysOf(t, pid))
  }

  /** `{...a, blob: undefined}`. */
  function WithoutBlob(a: ArtifactRow): ArtifactRow
  {
    a.(blob := None)
  }

  /** exportProcess's document: the process row, its steps in `index` order, and its artifacts
      without their file contents. */
  function Exported(db: Database, pid: RowId): ExportDoc
  {
    var arts := ProcessArtifacts(db.artifacts, pid);
    ExportDoc(
      if pid in db.processes.rows then Some(db.processes.rows[pid]) else None,
      LoadSteps(db.steps, pid),
      seq(|arts|, i requires 0 <= i < |arts| => WithoutBlob(arts[i])))
  }

  /** The export carries no file content: each exported artifact is a stored artifact of the
      process with its blob removed, and every stored artifact of the process is exported. */
  lemma ExportStripsBlobs(db: Database, pid: RowId)
    requires Issued(db.artifacts)
    ensures var doc := Exported(db, pid);
      forall i :: 0 <= i < |doc.artifacts| ==>
        (doc.artifacts[i].blob.None? &&
         exists k :: k in db.artifacts.rows && db.artifacts.rows[k].processId == pid &&
           doc.artifacts[i] == db.artifacts.rows[k].(blob := None))
    ensures var doc := Exported(db, pid);
      forall k :: k in db.artifacts.rows && db.artifacts.rows[k].processId == pid ==>
        db.artifacts.rows[k].(blob := None) in doc.artifacts
  {
    var ks := ArtifactKeysOf(db.artifacts, pid);
    var arts := Exported(db, pid).artifacts;
    ExportedArtifacts(db, pid);
    forall i | 0 <= i < |arts|
      ensures exists k :: (k in db.artifacts.rows && db.artifacts.rows[k].processId == pid &&
        arts[i] == db.artifacts.rows[k].(blob := None))
    {
      assert ks[i] in ks;
    }
    forall k | k in db.artifacts.rows && db.artifacts.rows[k].processId == pid
      ensures db.artifacts.rows[k].(blob := None) in arts
    {
      var i :| 0 <= i < |ks| && ks[i] == k;
      assert arts[i] == db.artifacts.rows[k].(blob := None);
    }
  }

  /** The exported artifacts are the process's artifacts in key order, without blobs. */
  lemma ExportedArtifacts(db: Database, pid: RowId)
    ensures var ks := ArtifactKeysOf(db.artifacts, pid); var arts := Exported(db, pid).artifacts;
      && |arts| == |ks|
      && forall i :: 0 <= i < |ks| ==> ks[i] in db.artifacts.rows && arts[i] == db.artifacts.rows[ks[i]].(blob := None)
  {
    var ks := ArtifactKeysOf(db.artifacts, pid);
    var rows := ProcessArtifacts(db.artifacts, pid);
    assert forall i :: 0 <= i < |ks| ==> ks[i] in ks;
  }

  /* ---------------- The export file name ---------------- */

  /** Drops the leading copies of `c`. */
  function DropLeading(s: string, c: char): (r: string)
    ensures |r| <= |s| && r == s[|s| - |r|..]
    ensures r == [] || r[0] != c
  {
    if s != [] && s[0] == c then DropLeading(s[1..], c) else s
  }

  /** `replace(/\\s+/g, '_')` as the source writes it: the pattern is a backslash followed by one
      or more letters `s`, and each such run becomes `_`. */
  function ReplaceBackslashS(s: string): (r: string)
    decreases |s|
  {
    if s == [] then []
    else if |s| >= 2 && s[0] == '\\' && s[1] == 's' then "_" + ReplaceBackslashS(DropLeading(s[1..], 's'))
    else [s[0]] + ReplaceBackslashS(s[1..])
  }

  /** A name without a backslash goes through unchanged: white space included. */
  lemma {:induction false} NoBackslashUnchanged(s: string)
    requires '\\' !in s
    ensures ReplaceBackslashS(s) == s
    decreases |s|
  {
    if s != [] {
      assert '\\' !in s[1..];
      NoBackslashUnchanged(s[1..]);
    }
  }

  /** What the written pattern does achieve: no backslash followed by `s` survives. */
  lemma {:induction false} NoBackslashSLeft(s: string)
    ensures forall i :: 0 <= i < |ReplaceBackslashS(s)| - 1 ==>
      !(ReplaceBackslashS(s)[i] == '\\' && ReplaceBackslashS(s)[i + 1] == 's')
    decreases |s|
  {
    if s != [] {
      var r := ReplaceBackslashS(s);
      if |s| >= 2 && s[0] == '\\' && s[1] == 's' {
        var rest := DropLeading(s[1..], 's');
        NoBackslashSLeft(rest);
        assert r == "_" + ReplaceBackslashS(rest);
      } else {
        NoBackslashSLeft(s[1..]);
        var tail := ReplaceBackslashS(s[1..]);
        assert r == [s[0]] + tail;
        if s[0] == '\\' && tail != [] {
          assert |s| >= 2 && s[1] != 's';
          assert tail[0] == s[1] || tail[0] == '_' by {
            assert s[1..] != [];
          }
        }
      }
    }
  }

  /** The name part of the file: the process name, or `process` when it is missing or empty. */
  function BaseName(proc: Option<ProcessRow>): (r: string)
    ensures r != []
  {
    if proc.Some? && proc.value.name != "" then proc.value.name else "process"
  }

  /** The download name exportProcess gives the document, as written. */
  function ExportFileName(proc: Option<ProcessRow>): (r: string)
    ensures |r| > |".apo.json"| && r[|r| - |".apo.json"|..] == ".apo.json"
  {
    ReplaceBackslashS(BaseName(proc)) + ".apo.json"
  }

  /** A process whose name has white space but no backslash, such as "Q3 plan", is exported
      under its name unchanged: the white space the pattern was meant to replace is still there. */
  lemma ExportFileNameKeepsWhitespace(p: ProcessRow, i: nat)
    requires i < |p.name| && IsWhitespace(p.name[i]) && '\\' !in p.name
    ensures ExportFileName(Some(p)) == p.name + ".apo.json"
    ensures IsWhitespace(ExportFileName(Some(p))[i])
  {
    NoBackslashUnchanged(p.name);
  }

  /** `replace(/\s+/g, '_')`: every run of white space becomes one `_`. */
  function ReplaceWhitespaceRuns(s: string): (r: string)
    ensures forall i :: 0 <= i < |r| ==> !IsWhitespace(r[i])
    decreases |s|
  {
    if s == [] then []
    else if IsWhitespace(s[0]) then "_" + ReplaceWhitespaceRuns(TrimStart(s))
    else [s[0]] + ReplaceWhitespaceRuns(s[1..])
  }

  /** A name without white space goes through unchanged. */
  lemma {:induction false} NoWhitespaceUnchanged(s: string)
    requires forall i :: 0 <= i < |s| ==> !IsWhitespace(s[i])
    ensures ReplaceWhitespaceRuns(s) == s
    decreases |s|
  {
    if s != [] {
      NoWhitespaceUnchanged(s[1..]);
    }
  }

  /** The download name with white space replaced, as the pattern was evidently meant. */
  function IntendedExportFileName(proc: Option<ProcessRow>): (r: string)
    ensures forall i :: 0 <= i < |r| ==> !IsWhitespace(r[i])
  {
    ReplaceWhitespaceRuns(BaseName(proc)) + ".apo.json"
  }

  lemma {:induction false} NoWhitespacePrefix(a: string, rest: string)
    requires forall i :: 0 <= i < |a| ==> !IsWhitespace(a[i])
    ensures ReplaceWhitespaceRuns(a + rest) == a + ReplaceWhitespaceRuns(rest)
    decreases |a|
  {
    if a != [] {
      assert (a + rest)[0] == a[0] && (a + rest)[1..] == a[1..] + rest;
      NoWhitespacePrefix(a[1..], rest);
      assert [a[0]] + a[1..] == a;
    } else {
      assert a + rest == rest;
    }
  }

  /** The corrected name of a process named "Q3 plan" is "Q3_plan.apo.json". */
  lemma IntendedExportFileNameReplacesSpace(a: string, b: string)
    requires a != [] && b != []
    requires forall i :: 0 <= i < |a| ==> !IsWhitespace(a[i])
    requires forall i :: 0 <= i < |b| ==> !IsWhitespace(b[i])
    ensures IntendedExportFileName(Some(ProcessRow(Some(1), a + " " + b, None, 0, 0, None))) == a + "_" + b + ".apo.json"
  {
    assert a + " " + b == a + (" " + b);
    NoWhitespacePrefix(a, " " + b);
    assert TrimStart(" " + b) == b by {
      assert (" " + b)[1..] == b;
    }
    NoWhitespaceUnchanged(b);
  }

  /* ---------------- Import ---------------- */

  /** `(process?.name || 'Imported Process') + ' (import)'`. */
  function ImportedName(p: Option<ProcessRow>): (r: string)
    ensures |r| >= |" (import)"| && r[|r| - |" (import)"|..] == " (import)"
    ensures p.Some? && p.value.name != "" ==> r == p.value.name + " (import)"
  {
    (if p.Some? && p.value.name != "" then p.value.name else "Imported Process") + " (import)"
  }

  /** `process?.description || ''`. */
  function ImportedDescription(p: Option<ProcessRow>): string
  {
    if p.Some? && p.value.description.Some? then p.value.description.value else ""
  }

  /** The new process row: no cloud id yet, both timestamps `now`. */
  function ImportedProcess(p: Option<ProcessRow>, now: nat): ProcessRow
  {
    ProcessRow(None, ImportedName(p), Some(ImportedDescription(p)), now, now, None)
  }

  /** The steps table and the old-id to new-id map while importProcess's step loop runs. */
  datatype StepImport = StepImport(table: Table<StepRow>, idMap: map<RowId, RowId>)

  /** One iteration of the step loop: the step is stored under a fresh key in process `pid`, and
      its old id (when it has one) is mapped to that key, replacing an earlier mapping. */
  function ImportOneStep(p: StepImport, pid: RowId, st: StepRow): StepImport
  {
    var newId := p.table.nextId;
    StepImport(
      Add(p.table, st.(id := Some(newId), processId := pid)),
      if st.id.Some? then p.idMap[st.id.value := newId] else p.idMap)
  }

  function ImportSteps(t: Table<StepRow>, pid: RowId, s: seq<StepRow>): StepImport
    decreases |s|
  {
    if s == [] then StepImport(t, map[]) else ImportOneStep(ImportSteps(t, pid, s[..|s| - 1]), pid, s[|s| - 1])
  }

  /** The document step `s[i]` is stored under key `t.nextId + i`, in process `pid`, with every
      other field as in the document; the keys before `t.nextId` keep their rows. */
  ghost predicate StepRowsImported(t: Table<StepRow>, pid: RowId, s: seq<StepRow>, u: Table<StepRow>)
  {
    && u.nextId == t.nextId + |s|
    && (forall k :: k in u.rows <==> k in t.rows || t.nextId <= k < t.nextId + |s|)
    && (forall k :: k in t.rows ==> u.rows[k] == t.rows[k])
    && (forall i :: 0 <= i < |s| ==> u.rows[t.nextId + i] == s[i].(id := Some(t.nextId + i), processId := pid))
  }

  /** The position of the last step of `s` whose id is `o`, or -1 when there is none. */
  function LastWith(s: seq<StepRow>, o: RowId): (r: int)
    ensures -1 <= r < |s|
    ensures r >= 0 ==> s[r].id == Some(o) && forall j :: r < j < |s| ==> s[j].id != Some(o)
    ensures r == -1 ==> forall j :: 0 <= j < |s| ==> s[j].id != Some(o)
    decreases |s|
  {
    if s == [] then -1
    else if s[|s| - 1].id == Some(o) then |s| - 1
    else
      var r := LastWith(s[..|s| - 1], o);
      assert forall j :: 0 <= j < |s| - 1 ==> s[..|s| - 1][j] == s[j];
      r
  }

  /** Each old id of the document is mapped to the key of the last document step carrying it. */
  ghost predicate IdMapImported(base: RowId, s: seq<StepRow>, m: map<RowId, RowId>)
  {
    forall o :: (o in m <==> LastWith(s, o) >= 0) && (o in m ==> m[o] == base + LastWith(s, o))
  }

  ghost predicate StepsImported(t: Table<StepRow>, pid: RowId, s: seq<StepRow>, r: StepImport)
  {
    StepRowsImported(t, pid, s, r.table) && IdMapImported(t.nextId, s, r.idMap)
  }

  lemma ImportOneStepRows(t: Table<StepRow>, pid: RowId, s: seq<StepRow>, p: StepImport, st: StepRow)
    requires Issued(t) && StepRowsImported(t, pid, s, p.table)
    ensures StepRowsImported(t, pid, s + [st], ImportOneStep(p, pid, st).table)
  {
    var r := ImportOneStep(p, pid, st);
    var s1 := s + [st];
    assert p.table.nextId !in p.table.rows;
    forall i | 0 <= i < |s1|
      ensures r.table.rows[t.nextId + i] == s1[i].(id := Some(t.nextId + i), processId := pid)
    {
      if i < |s| { assert s1[i] == s[i]; }
    }
  }

  lemma ImportOneStepMap(base: RowId, s: seq<StepRow>, m: map<RowId, RowId>, st: StepRow)
    requires IdMapImported(base, s, m)
    ensures IdMapImported(base, s + [st], if st.id.Some? then m[st.id.value := base + |s|] else m)
  {
    var s1 := s + [st];
    assert s1[..|s1| - 1] == s;
    assert forall o: RowId :: LastWith(s1, o) == if st.id == Some(o) then |s| else LastWith(s, o);
  }

  lemma {:induction false} ImportStepsSpec(t: Table<StepRow>, pid: RowId, s: seq<StepRow>)
    requires Issued(t)
    ensures StepsImported(t, pid, s, ImportSteps(t, pid, s))
    decreases |s|
  {
    if s != [] {
      var n := |s|;
      var s0 := s[..n - 1];
      assert s0 + [s[n - 1]] == s;
      ImportStepsSpec(t, pid, s0);
      var p := ImportSteps(t, pid, s0);
      ImportOneStepRows(t, pid, s0, p, s[n - 1]);
      ImportOneStepMap(t.nextId, s0, p.idMap, s[n - 1]);
      assert p.table.nextId == t.nextId + |s0|;
      assert ImportSteps(t, pid, s) == ImportOneStep(p, pid, s[n - 1]);
    } else {
      assert ImportSteps(t, pid, s) == StepImport(t, map[]);
    }
  }

  /** Every artifact of the document names the id of one of the document's steps. */
  predicate ArtifactsResolve(doc: ExportDoc)
  {
    forall i :: 0 <= i < |doc.artifacts| ==> LastWith(doc.steps, doc.artifacts[i].stepId) >= 0
  }

  /** An artifact as the artifact loop stores it: moved to process `pid`, attached to the new id of
      its step, without file content. */
  function ImportedArtifact(a: ArtifactRow, pid: RowId, m: map<RowId, RowId>): ArtifactRow
    requires a.stepId in m
  {
    a.(processId := pid, stepId := m[a.stepId], blob := None)
  }

  /** importProcess's artifact loop over `arts`, each added under a fresh key. */
  function ImportArtifacts(t: Table<ArtifactRow>, pid: RowId, m: map<RowId, RowId>, arts: seq<ArtifactRow>): Table<ArtifactRow>
    requires forall i :: 0 <= i < |arts| ==> arts[i].stepId in m
    decreases |arts|
  {
    if arts == [] then t
    else
      var u := ImportArtifacts(t, pid, m, arts[..|arts| - 1]);
      Add(u, ImportedArtifact(arts[|arts| - 1], pid, m).(id := Some(u.nextId)))
  }

  ghost predicate ArtifactRowsImported(t: Table<ArtifactRow>, pid: RowId, m: map<RowId, RowId>, arts: seq<ArtifactRow>, u: Table<ArtifactRow>)
    requires forall i :: 0 <= i < |arts| ==> arts[i].stepId in m
  {
    && u.nextId == t.nextId + |arts|
    && (forall k :: k in u.rows <==> k in t.rows || t.nextId <= k < t.nextId + |arts|)
    && (forall k :: k in t.rows ==> u.rows[k] == t.rows[k])
    && (forall i :: 0 <= i < |arts| ==>
          u.rows[t.nextId + i] == ImportedArtifact(arts[i], pid, m).(id := Some(t.nextId + i)))
  }

  lemma {:induction false} ImportArtifactsSpec(t: Table<ArtifactRow>, pid: RowId, m: map<RowId, RowId>, arts: seq<ArtifactRow>)
    requires Issued(t)
    requires forall i :: 0 <= i < |arts| ==> arts[i].stepId in m
    ensures ArtifactRowsImported(t, pid, m, arts, ImportArtifacts(t, pid, m, arts))
    decreases |arts|
  {
    if arts != [] {
      var n := |arts|;
      var a0 := arts[..n - 1];
      assert forall i :: 0 <= i < n - 1 ==> a0[i] == arts[i];
      ImportArtifactsSpec(t, pid, m, a0);
      ImportOneArtifactRows(t, pid, m, a0, ImportArtifacts(t, pid, m, a0), arts[n - 1]);
      assert a0 + [arts[n - 1]] == arts;
    }
  }

  lemma ImportOneArtifactRows(t: Table<ArtifactRow>, pid: RowId, m: map<RowId, RowId>, a0: seq<ArtifactRow>,
                              u: Table<ArtifactRow>, a: ArtifactRow)
    requires Issued(t) && a.stepId in m && forall i :: 0 <= i < |a0| ==> a0[i].stepId in m
    requires ArtifactRowsImported(t, pid, m, a0, u)
    ensures var a1 := a0 + [a];
      && (forall i :: 0 <= i < |a1| ==> a1[i].stepId in m)
      && ArtifactRowsImported(t, pid, m, a1, Add(u, ImportedArtifact(a, pid, m).(id := Some(u.nextId))))
  {
    var a1 := a0 + [a];
    var r := Add(u, ImportedArtifact(a, pid, m).(id := Some(u.nextId)));
    assert u.nextId !in u.rows;
    forall i | 0 <= i < |a1|
      ensures a1[i].stepId in m
      ensures r.rows[t.nextId + i] == ImportedArtifact(a1[i], pid, m).(id := Some(t.nextId + i))
    {
      if i < |a0| { assert a1[i] == a0[i]; }
    }
  }

  /** The database after importProcess, and the key of the new process. */
  datatype Imported = Imported(db: Database, pid: RowId)

  /** importProcess's transaction: a new process, then its steps, then its artifacts. */
  function ImportDocument(db: Database, doc: ExportDoc, now: nat): Imported
    requires Issued(db.steps) && ArtifactsResolve(doc)
  {
    var pid := db.processes.nextId;
    var procs := Add(db.processes, ImportedProcess(doc.process, now).(id := Some(pid)));
    var st := ImportSteps(db.steps, pid, doc.steps);
    ImportStepsSpec(db.steps, pid, doc.steps);
    Imported(Database(procs, st.table, ImportArtifacts(db.artifacts, pid, st.idMap, doc.artifacts)), pid)
  }

  /** Importing adds one process and, in it, a copy of every document step (new keys, in document
      order) and of every document artifact, stripped of its file content; nothing stored before
      changes. */
  lemma ImportDocumentSpec(db: Database, doc: ExportDoc, now: nat)
    requires WellFormed(db) && ArtifactsResolve(doc)
    ensures var r := ImportDocument(db, doc, now);
      && r.pid == db.processes.nextId && r.pid !in db.processes.rows
      && r.db.processes.rows == db.processes.rows[r.pid := ImportedProcess(doc.process, now).(id := Some(r.pid))]
      && StepsImported(db.steps, r.pid, doc.steps, ImportSteps(db.steps, r.pid, doc.steps))
      && r.db.steps == ImportSteps(db.steps, r.pid, doc.steps).table
      && ArtifactRowsImported(db.artifacts, r.pid, ImportSteps(db.steps, r.pid, doc.steps).idMap, doc.artifacts, r.db.artifacts)
  {
    var pid := db.processes.nextId;
    ImportStepsSpec(db.steps, pid, doc.steps);
    var st := ImportSteps(db.steps, pid, doc.steps);
    ImportArtifactsSpec(db.artifacts, pid, st.idMap, doc.artifacts);
  }

  /** Each imported artifact is attached to the imported copy of its step: the last document step
      that carried the artifact's step id. */
  lemma ImportAttachesArtifacts(db: Database, doc: ExportDoc, now: nat, j: nat)
    requires Issued(db.steps) && Issued(db.artifacts) && ArtifactsResolve(doc) && j < |doc.artifacts|
    ensures var r := ImportDocument(db, doc, now);
      var a := doc.artifacts[j];
      var i := LastWith(doc.steps, a.stepId);
      && 0 <= i < |doc.steps| && doc.steps[i].id == Some(a.stepId)
      && db.artifacts.nextId + j in r.db.artifacts.rows
      && r.db.artifacts.rows[db.artifacts.nextId + j] ==
           a.(id := Some(db.artifacts.nextId + j), processId := r.pid, stepId := db.steps.nextId + i, blob := None)
      && db.steps.nextId + i in r.db.steps.rows
      && r.db.steps.rows[db.steps.nextId + i] == doc.steps[i].(id := Some(db.steps.nextId + i), processId := r.pid)
  {
    ImportedDocumentArtifact(db, doc, now, j);
    ImportedDocumentStep(db, doc, now, LastWith(doc.steps, doc.artifacts[j].stepId));
  }

  /** The `j`-th document artifact is imported under the `j`-th new key, pointing at the new key
      of the last document step carrying its step id. */
  lemma ImportedDocumentArtifact(db: Database, doc: ExportDoc, now: nat, j: nat)
    requires Issued(db.steps) && Issued(db.artifacts) && ArtifactsResolve(doc) && j < |doc.artifacts|
    ensures var r := ImportDocument(db, doc, now);
      var a := doc.artifacts[j];
      && db.artifacts.nextId + j in r.db.artifacts.rows
      && r.db.artifacts.rows[db.artifacts.nextId + j] ==
           a.(id := Some(db.artifacts.nextId + j), processId := r.pid,
              stepId := db.steps.nextId + LastWith(doc.steps, a.stepId), blob := None)
  {
    var pid := db.processes.nextId;
    var st := ImportSteps(db.steps, pid, doc.steps);
    var a := doc.artifacts[j];
    ImportedIdAt(db.steps, pid, doc.steps, a.stepId);
    forall k | 0 <= k < |doc.artifacts| ensures doc.artifacts[k].stepId in st.idMap {
      ImportedIdAt(db.steps, pid, doc.steps, doc.artifacts[k].stepId);
    }
    ImportedArtifactAt(db.artifacts, pid, st.idMap, doc.artifacts, j);
    var r := ImportDocument(db, doc, now);
    assert r.pid == pid;
    assert r.db.artifacts == ImportArtifacts(db.artifacts, pid, st.idMap, doc.artifacts);
  }

  /** The `i`-th document step is imported under the `i`-th new key. */
  lemma ImportedDocumentStep(db: Database, doc: ExportDoc, now: nat, i: int)
    requires Issued(db.steps) && ArtifactsResolve(doc) && 0 <= i < |doc.steps|
    ensures var r := ImportDocument(db, doc, now);
      && db.steps.nextId + i in r.db.steps.rows
      && r.db.steps.rows[db.steps.nextId + i] == doc.steps[i].(id := Some(db.steps.nextId + i), processId := r.pid)
  {
    ImportedStepAt(db.steps, db.processes.nextId, doc.steps, i);
  }

  lemma ImportedStepAt(t: Table<StepRow>, pid: RowId, s: seq<StepRow>, i: int)
    requires Issued(t) && 0 <= i < |s|
    ensures var u := ImportSteps(t, pid, s).table;
      t.nextId + i in u.rows && u.rows[t.nextId + i] == s[i].(id := Some(t.nextId + i), processId := pid)
  {
    ImportStepsSpec(t, pid, s);
  }

  lemma ImportedIdAt(t: Table<StepRow>, pid: RowId, s: seq<StepRow>, o: RowId)
    requires Issued(t)
    ensures var m := ImportSteps(t, pid, s).idMap;
      (o in m <==> LastWith(s, o) >= 0) && (o in m ==> m[o] == t.nextId + LastWith(s, o))
  {
    ImportStepsSpec(t, pid, s);
  }

  lemma ImportedArtifactAt(t: Table<ArtifactRow>, pid: RowId, m: map<RowId, RowId>, arts: seq<ArtifactRow>, j: int)
    requires Issued(t) && 0 <= j < |arts|
    requires forall i :: 0 <= i < |arts| ==> arts[i].stepId in m
    ensures var u := ImportArtifacts(t, pid, m, arts);
      t.nextId + j in u.rows && u.rows[t.nextId + j] == ImportedArtifact(arts[j], pid, m).(id := Some(t.nextId + j))
  {
    ImportArtifactsSpec(t, pid, m, arts);
  }

  lemma StepRowsImportedOk(t: Table<StepRow>, pid: RowId, s: seq<StepRow>, u: Table<StepRow>)
    requires StepTableOk(t) && StepRowsImported(t, pid, s, u)
    ensures StepTableOk(u)
    ensures forall k :: k in u.rows ==> k in t.rows || u.rows[k].processId == pid
  {
    forall k | k in u.rows && k !in t.rows ensures u.rows[k].id == Some(k) && u.rows[k].processId == pid {
      assert u.rows[t.nextId + (k - t.nextId)] == s[k - t.nextId].(id := Some(k), processId := pid);
    }
  }

  lemma ArtifactRowsImportedOk(t: Table<ArtifactRow>, pid: RowId, m: map<RowId, RowId>, arts: seq<ArtifactRow>, u: Table<ArtifactRow>)
    requires forall i :: 0 <= i < |arts| ==> arts[i].stepId in m
    requires ArtifactTableOk(t) && ArtifactRowsImported(t, pid, m, arts, u)
    ensures ArtifactTableOk(u)
    ensures forall k :: k in u.rows ==> k in t.rows || u.rows[k].processId == pid
  {
    forall k | k in u.rows && k !in t.rows ensures u.rows[k].id == Some(k) && u.rows[k].processId == pid {
      assert u.rows[t.nextId + (k - t.nextId)] == ImportedArtifact(arts[k - t.nextId], pid, m).(id := Some(k));
    }
  }

  /** Importing keeps the database well formed. */
  lemma ImportKeepsWellFormed(db: Database, doc: ExportDoc, now: nat)
    requires WellFormed(db) && ArtifactsResolve(doc)
    ensures WellFormed(ImportDocument(db, doc, now).db)
  {
    ImportDocumentSpec(db, doc, now);
    var r := ImportDocument(db, doc, now);
    var st := ImportSteps(db.steps, r.pid, doc.steps);
    StepRowsImportedOk(db.steps, r.pid, doc.steps, r.db.steps);
    ArtifactRowsImportedOk(db.artifacts, r.pid, st.idMap, doc.artifacts, r.db.artifacts);
  }
}
