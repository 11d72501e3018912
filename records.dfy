/**
 * The record shapes and the schema of the local database (src/db.ts): processes, steps and
 * artifacts, each in an auto-increment table, with steps and artifacts indexed by `processId`.
 */
module Records {
  import opened Wrappers
  import opened Tables

  /** How often a step runs; a step's `frequency` is one of these or empty. */
  datatype Frequency =
    | PerTransaction | Hourly | Daily | Weekly | Monthly | Quarterly | Yearly | AdHocOnEvent

  /** The literal that stands for each frequency in the stored records and the UI. */
  function FrequencyLabel(f: Frequency): (literal: string)
    ensures |literal| > 0
  {
    match f
    case PerTransaction => "Per transaction"
    case Hourly => "Hourly"
    case Daily => "Daily"
    case Weekly => "Weekly"
    case Monthly => "Monthly"
    case Quarterly => "Quarterly"
    case Yearly => "Yearly"
    case AdHocOnEvent => "Ad hoc / On event"
  }

  /** Position of a frequency in the declaration of the `Frequency` union. */
  function DeclaredPosition(f: Frequency): nat
  {
    match f
    case PerTransaction => 0
    case Hourly => 1
    case Daily => 2
    case Weekly => 3
    case Monthly => 4
    case Quarterly => 5
    case Yearly => 6
    case AdHocOnEvent => 7
  }

  /** The options offered by the frequency selector. */
  const DEFAULT_FREQUENCIES: seq<Frequency> :=
    [PerTransaction, Hourly, Daily, Weekly, Monthly, Quarterly, Yearly, AdHocOnEvent]

  /** `frequency || ''`: the empty string when no frequency is chosen. */
  function FrequencyText(f: Option<Frequency>): (text: string)
    ensures text == "" <==> f.None?
  {
    match f
    case None => ""
    case Some(g) => FrequencyLabel(g)
  }

  /** What follows a step: the end of the process, another step, or a handoff. */
  datatype NextType = End | Step | Handoff

  /** `nextRef`: a step's array position (a number) or a free-text handoff target (a string). */
  datatype NextRef = RefPosition(position: int) | RefText(text: string)

  datatype ArtifactKind = Input | Output | System

  /** A file's binary content, opaque to the model. */
  datatype Blob = Blob(handle: nat)

  datatype ProcessRow = ProcessRow(
    id: Option<RowId>,
    name: string,
    description: Option<string>,
    createdAt: nat,
    updatedAt: nat,
    cloudId: Option<string>)

  datatype StepRow = StepRow(
    id: Option<RowId>,
    processId: RowId,
    index: int,
    who: string,
    action: string,
    tools: seq<string>,
    details: string,
    frequency: Option<Frequency>,
    outcome: string,
    duration: string,
    nextType: NextType,
    nextRef: Option<NextRef>,
    isEnd: bool)

  /** An attached file. The source calls `kind` `type`. */
  datatype ArtifactRow = ArtifactRow(
    id: Option<RowId>,
    processId: RowId,
    stepId: RowId,
    kind: ArtifactKind,
    name: string,
    mimeType: string,
    size: nat,
    blob: Option<Blob>)

  /** The three tables of the local database. */
  datatype Database = Database(
    processes: Table<ProcessRow>,
    steps: Table<StepRow>,
    artifacts: Table<ArtifactRow>)

  function EmptyDatabase(): Database
  {
    Database(EmptyTable(), EmptyTable(), EmptyTable())
  }

  /** Each row carries its own primary key, and every key was issued by the table's generator. */
  ghost predicate ProcessTableOk(t: Table<ProcessRow>)
  {
    Issued(t) && forall k :: k in t.rows ==> t.rows[k].id == Some(k)
  }

  ghost predicate StepTableOk(t: Table<StepRow>)
  {
    Issued(t) && forall k :: k in t.rows ==> t.rows[k].id == Some(k)
  }

  ghost predicate ArtifactTableOk(t: Table<ArtifactRow>)
  {
    Issued(t) && forall k :: k in t.rows ==> t.rows[k].id == Some(k)
  }

  /** Referential integrity: every step and artifact belongs to a stored process. */
  ghost predicate NoOrphans(db: Database)
  {
    && (forall k :: k in db.steps.rows ==> db.steps.rows[k].processId in db.processes.rows)
    && (forall k :: k in db.artifacts.rows ==> db.artifacts.rows[k].processId in db.processes.rows)
  }

  ghost predicate WellFormed(db: Database)
  {
    && ProcessTableOk(db.processes)
    && StepTableOk(db.steps)
    && ArtifactTableOk(db.artifacts)
    && NoOrphans(db)
  }

  lemma EmptyDatabaseWellFormed()
    ensures WellFormed(EmptyDatabase())
  {
  }

  /** The selector offers each of the eight frequencies exactly once, in the order the union
      declares them (distinct positions hold distinct declared positions, hence distinct values). */
  lemma DefaultFrequenciesInDeclaredOrder()
    ensures |DEFAULT_FREQUENCIES| == 8
    ensures forall f: Frequency :: f in DEFAULT_FREQUENCIES
    ensures forall i :: 0 <= i < |DEFAULT_FREQUENCIES| ==> DeclaredPosition(DEFAULT_FREQUENCIES[i]) == i
  {
    forall f: Frequency ensures f in DEFAULT_FREQUENCIES {
      assert DEFAULT_FREQUENCIES[DeclaredPosition(f)] == f;
    }
  }

  /** Different frequencies are stored as different literals. */
  lemma FrequencyLabelsDistinct(f: Frequency, g: Frequency)
    ensures FrequencyLabel(f) == FrequencyLabel(g) ==> f == g
  {
    if f != g {
      assert FrequencyLabel(f)[0] != FrequencyLabel(g)[0];
    }
  }
}
