# A-PO process gatherer: a verified model of the editor core

The A-PO front end is a local-first editor for business processes. A process is a named list of
steps: who does what, with which tools, how often, and what comes next. Files can be attached to a
step as input, output or system examples. Everything lives in a browser database of three
auto-increment tables: processes, steps and artifacts. Saving can also push the process to a
backend.

This Dafny project models the editor's core:

- the record shapes and the table schema (`records.dfy`, `tables.dfy`);
- the ordered queries the editor runs (`ordering.dfy`, `persistence.dfy`);
- undo and redo over step-list snapshots, with a 50-entry history (`history.dfy`);
- the step-list edits (`step_list.dfy`);
- the store transactions: save, cascade delete, export and import (`persistence.dfy`,
  `transfer.dfy`);
- the remote-sync decision (`sync.dfy`);
- the handler loops and the invariant the editor keeps between events (`handlers.dfy`);
- the editor component itself, as the class `Editor.App` with one method per event handler
  (`app.dfy`);
- the pure helpers of the UI components: the artifact badge and the chip input
  (`components.dfy`, with `text.dfy` for JavaScript string semantics).

Each handler runs to completion before the next one starts. Inside a handler, component state is
read as it was when the handler started, and the database is read as it is at that moment. Each
handler's `nowISO()` calls are one tick of an increasing natural-number clock. The backend is a
log of abstract calls (`RemoteCall`), and its answers are a parameter (`Replies`).

The invariant `Editor.App.Valid` ties the handlers together. It says:

- the database is well formed: every key was issued by its table's generator, and every step
  and every artifact points to a stored process;
- the history holds at most 50 snapshots;
- the open process is stored;
- the current list, and every list an undo or redo can bring back, can be saved into the open
  process (`Handlers.SessionReady`).

Every handler preserves it.

## Model

| member | source | states |
|---|---|---|
| Records.FrequencyLabel | src/db.ts:3 | every frequency is stored as a non-empty literal |
| Records.FrequencyLabelsDistinct | src/db.ts:3 | different frequencies have different literals, so the stored text determines the frequency |
| Records.FrequencyText | src/db.ts:23 | a step's `frequency` text is `''` exactly when no frequency is chosen |
| Records.DefaultFrequenciesInDeclaredOrder | src/db.ts:57 | the selector list has eight entries, holds every frequency, and position i holds the i-th declared literal, so each appears once and in declared order |
| Records.EmptyDatabaseWellFormed | src/db.ts:43-56 | a fresh database is well formed: no rows, so every key is issued and every row points to a stored process |
| Tables.Add | src/db.ts:50-52 | `add` stores the row under the generator's next key, which was free, advances the generator and keeps every other row |
| Tables.Put | src/App.tsx:155 | `put` stores the row under its own key, keeps every other row, and keeps all keys issued |
| Tables.Update | src/App.tsx:86 | `update` changes only the named row; a missing key changes nothing |
| Tables.Delete | src/App.tsx:143 | `delete` removes exactly that key and keeps the other rows; a missing key is no error |
| Tables.DeleteWhere | src/App.tsx:94-95 | `where(...).delete()` removes exactly the rows that match and keeps the rest unchanged |
| Tables.Keys | src/db.ts:50-52 | a full scan visits every stored key once, in increasing order |
| Tables.Where | src/App.tsx:64 | an index lookup yields exactly the keys whose rows match, in scan order |
| Tables.RowsAt | src/App.tsx:68 | `toArray` yields the row of each key, in key order |
| Ordering.Insert | src/App.tsx:64 | one insertion step adds exactly the element and keeps a sorted list sorted |
| Ordering.SortBy | src/App.tsx:64 | `sortBy` returns a permutation of its input, sorted by the key |
| Persistence.Listing | src/App.tsx:60 | the listing's i-th entry is the stored row under the i-th listing key |
| Persistence.ListedKeysBelowSpec | src/App.tsx:60 | the listing keys are exactly the stored keys, each once, ordered newest `updatedAt` first |
| Persistence.ListingRowsStored | src/App.tsx:60 | every listed entry is the stored row under its own id, and no id is listed twice |
| Persistence.ListingComplete | src/App.tsx:60 | every stored process is listed, and the listing is empty exactly when the table is |
| Persistence.ListingNewestFirst | src/App.tsx:60 | `updatedAt` does not increase along the listing, and its head has the greatest `updatedAt` in the table |
| Persistence.Find | src/App.tsx:168 | `find` returns a listed row with the id, or none is listed with it |
| Persistence.StepKeysOf | src/App.tsx:162 | the step keys of a process are exactly its stored step rows, in increasing key order |
| Persistence.LoadKeysBelowSpec | src/App.tsx:64 | each insertion pass keeps exactly the process's step keys below the bound, once each, sorted by `index` then key |
| Persistence.LoadKeysSpec | src/App.tsx:64 | the keys loaded are exactly the process's step keys, once each, in `index` order |
| Persistence.LoadSteps | src/App.tsx:64 | the i-th loaded step is the stored row under the i-th load key |
| Persistence.LoadStepsStored | src/App.tsx:64 | each loaded step is stored under its id and belongs to the process, and no id is loaded twice |
| Persistence.LoadStepsCompleteAndOrdered | src/App.tsx:64 | every stored step of the process is loaded, and `index` does not decrease along the list |
| Persistence.UpsertOneWithId | src/App.tsx:154-155 | putting a step that has an id keeps what the upsert loop has achieved |
| Persistence.UpsertOneWithoutId | src/App.tsx:156-159 | adding a step without an id, and giving it the generated key, keeps what the loop has achieved |
| Persistence.UpsertedSpec | src/App.tsx:153-160 | after the upsert loop every step has an id (its own or a fresh key), each step is stored under its id, and rows of no listed step are untouched |
| Persistence.UpsertStoredIsNoop | src/App.tsx:153-160 | upserting steps that are already stored exactly as they are changes neither the table nor the list |
| Persistence.PruneKeepsListed | src/App.tsx:161-163 | after upsert and prune, the process's stored rows are exactly the saved list |
| Persistence.PruneDeletesOwnOnly | src/App.tsx:162-163 | pruning only deletes, and never deletes a row of another process |
| Persistence.PruneLeavesOthers | src/App.tsx:162-163 | after an upsert that touched only the process's rows, pruning leaves other processes' rows as they were |
| Persistence.PruneListedIsNoop | src/App.tsx:161-163 | pruning a table that holds exactly the listed rows deletes nothing |
| Persistence.SaveLeavesOthers | src/App.tsx:151-164 | the save transaction leaves every other process's steps unchanged |
| Persistence.SaveStepsCorrect | src/App.tsx:151-164 | after a save every step has an id (kept if it had one, fresh otherwise) and no other field changed; the process's rows are exactly the list; other processes are untouched; the list can be saved again |
| Persistence.SaveIsIdempotent | src/App.tsx:151-164 | a second save with no edit in between leaves the table and the list as they are |
| Persistence.ResaveAfterUndo | src/App.tsx:153-163 | a list brought back by undo with a step that has no id is saved under a new key; the row the first save made for that step is pruned; the process still holds exactly the list |
| Persistence.CascadeDeleteSpec | src/App.tsx:93-97 | deleting a process removes it and exactly the steps and artifacts that belong to it, changes nothing else, and keeps the database well formed |
| Text.TrimSpec | src/components.tsx:69 | `trim` gives the input with only a blank prefix and a blank suffix removed, and leaves no white space at either end |
| Text.TrimEmptyIffBlank | src/components.tsx:69-71 | a string trims to `''` exactly when it is all white space |
| Text.Split | src/components.tsx:82 | `split` gives at least one piece, no piece holds the separator, and joining the pieces gives back the input |
| Text.LastPieceIsTextAfterLast | src/components.tsx:100 | `split(sep).pop()` is the text after the last separator, or the whole string when there is none |
| Text.TextAfterLastUnique | src/components.tsx:100 | the text after the last separator is determined by the string |
| Text.ToUpper | src/components.tsx:101 | `toUpperCase` keeps the length, raises every lower-case ASCII letter and keeps every other character |
| Text.NatToString | src/App.tsx:78 | a number is rendered as decimal digits with no leading zero that denote the number |
| Text.Utf16Length | src/components.tsx:101 | a string's `length` counts UTF-16 code units: one per character of the Basic Multilingual Plane, two for any other |
| Components.ExtFromByName | src/components.tsx:100-101 | a name extension of 1 to 5 UTF-16 code units, upper-cased, is the badge |
| Components.ExtFromByMime | src/components.tsx:102-103 | otherwise the upper-cased MIME subtype is the badge |
| Components.ExtFromFallback | src/components.tsx:102-103 | with neither, the badge is `FILE` |
| Components.DotlessNameIsExtension | src/components.tsx:100-101 | a dotless name of 1 to 5 UTF-16 code units, upper-cased, is its own badge |
| Components.AstralExtensionTooLong | src/components.tsx:100-103 | an extension of three characters outside the Basic Multilingual Plane is six code units long, so the MIME subtype names the badge |
| Components.BadgeColor | src/components.tsx:106-133 | every extension gets two classes, a background and a text colour |
| Components.BadgeColorSafelisted | tailwind.config.js:7-13 | every badge is one background/text pair of the Tailwind safelist, so no badge class is purged |
| Components.AddChip | src/components.tsx:69 | a blank or already present value leaves the chips unchanged; otherwise the trimmed value is appended at the end; no duplicate is introduced |
| Components.AddChipIdempotent | src/components.tsx:69 | adding the same value twice is the same as adding it once |
| Components.NewPiecesSpec | src/components.tsx:69-70 | the trimmed pieces `addChip` would add are exactly those that are not blank and not among the chips |
| Components.AddManyCallsSpec | src/components.tsx:69-70 | `addMany` hands `onChange` one list per new piece, each the chips the input was rendered with plus that piece |
| Components.AddManyKeepsChips | src/components.tsx:69-70 | once the owner stores what it is handed, the chips are the old ones, plus the last new piece when there is one, with no duplicate |
| Components.PastedPiecesKeepOnlyLast | src/components.tsx:69-70 | pasting `a,b,` onto no chips leaves only `b` |
| Components.AddManyInOrderKeepsChips | src/components.tsx:69-70 | the intended `addMany`, each call seeing the previous one's chips, keeps the old chips first and in order with no duplicate |
| Components.AddManyInOrderChips | src/components.tsx:69-70 | with the intended `addMany` the chips are exactly the old chips and every trimmed non-blank piece |
| Components.PastedPiecesAllKept | src/components.tsx:69-70 | with the intended `addMany`, pasting `a,b,` onto no chips keeps `a` and `b` |
| Components.RemoveChip | src/components.tsx:79 | removal keeps exactly the chips other than the value |
| Components.RemoveChipDistributes | src/components.tsx:79 | removal works element by element, so the chips that stay keep their order |
| Components.RemoveAbsentChip | src/components.tsx:79 | removing a value that is not a chip changes nothing |
| Components.RemoveUndoesAdd | src/components.tsx:69-79 | removing a chip just added gives back the list before the addition |
| Components.OnChange | src/components.tsx:82 | typed text without a comma only becomes the input; with commas, the pieces but the last go through `addMany` and the input becomes the text after the last comma |
| Components.ChangeCallsShown | src/components.tsx:82 | the chips shown after typing are the last list handed to `onChange`, or the old chips when none was |
| Components.OnCommit | src/components.tsx:83 | Enter or `,` adds the pending text as a chip and clears the input |
| Components.ShowPlaceholderSpec | src/components.tsx:71 | the placeholder shows exactly when there are no chips and the input is all white space |
| History.Pushed | src/App.tsx:24-25 | the new history starts with the current list, then the old history with the oldest dropped beyond 50 |
| History.Record | src/App.tsx:24-27 | a structural edit clears the redo stack, keeps the history within 50, and puts the list before the edit on top |
| History.Undo | src/App.tsx:29-36 | undo with an empty history changes nothing, and undo keeps the history within its bound |
| History.Redo | src/App.tsx:38-45 | redo with an empty redo stack changes nothing, and redo keeps the history within its bound |
| History.UndoThenRedo | src/App.tsx:29-45 | undo followed by redo restores the list, the history and the redo stack exactly |
| History.RedoThenUndo | src/App.tsx:29-45 | redo followed by undo restores the list and the redo stack; the history comes back whole unless it was full |
| History.ApplyEditsShape | src/App.tsx:24-27 | after n ≤ 50 edits the history holds the list before each edit, newest first, then as much of the old history as fits |
| History.UndoPops | src/App.tsx:29-36 | n undos pop exactly the n newest snapshots and move the lists onto the redo stack |
| History.EditsThenUndos | src/App.tsx:24-36 | n ≤ 50 edits followed by n undos bring back the starting list, with the edited lists on the redo stack |
| History.StaleEditsAreEdits | src/App.tsx:24-27 | k updateStep calls in one handler equal k - 1 edits that leave the list as it was, then the last edit |
| History.StaleEditsUndo | src/App.tsx:24-36 | after k such calls the first undo already brings back the starting list, and k undos are needed to reach the older history |
| StepList.Appended | src/App.tsx:101-107 | addStep appends a step with no id at position n with index n, empty text fields, no tools, no frequency and successor "end" with no reference; it is the end step only when the list was empty; contiguous indices and "at most one end" are kept |
| StepList.Reindexed | src/App.tsx:119 | renumbering sets every index to its position and changes no other field |
| StepList.Moved | src/App.tsx:116-121 | moveStep swaps the two steps, renumbers, and changes nothing else; indices become contiguous; "at most one end" is kept |
| StepList.MoveBackRestores | src/App.tsx:116-121 | moving a step and then moving it back restores a contiguous list exactly |
| StepList.Removed | src/App.tsx:123-127 | removeStep drops exactly the step at i; the others keep their order and every field but `index`; indices become contiguous |
| StepList.Patched | src/App.tsx:111 | a patch never changes a step's id, process or index |
| StepList.UpdatedSteps | src/App.tsx:109-114 | updateStep patches step i; marking it the end also sets `nextType` to end, clears `nextRef` and unmarks every other step, whose other fields stay; otherwise other steps are unchanged |
| StepList.FirstEndIndex | src/App.tsx:200 | the first end step's position, or -1 exactly when no step is the end; under "at most one end" it is the only one |
| Sync.PayloadOf | src/App.tsx:174 | the uploaded step's `frequency` is `''` exactly when none is chosen, and otherwise its literal |
| Sync.Payload | src/App.tsx:174 | one payload per step, in order |
| Sync.SyncPlan | src/App.tsx:169-176 | no call without a backend; a process without a cloud id gets exactly one create, whose returned id is stored, then a steps upload only if the create succeeded; a process with one gets an update, then an upload only if it succeeded; the upload is always last |
| Handlers.AppendedReady | src/App.tsx:101-107 | addStep keeps the list ready to be saved into the process |
| Handlers.UpdatedReady | src/App.tsx:109-114 | updateStep keeps the list ready to be saved |
| Handlers.MovedReady | src/App.tsx:116-121 | moveStep keeps the list ready to be saved |
| Handlers.RemovedReady | src/App.tsx:123-127 | removeStep keeps the list ready to be saved |
| Handlers.RecordReady | src/App.tsx:24-27 | recording an edit keeps every list on both stacks ready to be saved |
| Handlers.UndoReady | src/App.tsx:29-36 | undo keeps every list on both stacks ready to be saved |
| Handlers.RedoReady | src/App.tsx:38-45 | redo keeps every list on both stacks ready to be saved |
| Handlers.SessionCarries | src/App.tsx:93-97 | a change of the steps table that keeps the process's ids with it keeps the session ready |
| Handlers.LoadedReady | src/App.tsx:64-66 | a freshly loaded list, with empty stacks, is ready to be saved |
| Handlers.ArtifactsOf | src/App.tsx:69 | the artifacts filtered for a step are artifacts of that step |
| Handlers.ArtifactsOfComplete | src/App.tsx:69 | every artifact of the step is among the filtered ones |
| Handlers.GroupByStep | src/App.tsx:67-70 | the grouping loop lists, under each step id, exactly that step's artifacts in order, and has no empty group |
| Handlers.WithoutArtifact | src/App.tsx:144 | the filter keeps exactly the artifacts with another id |
| Handlers.RemoveThenGroup | src/App.tsx:142-145 | removing an artifact from its step's group is the same as removing it from the process's artifacts and grouping again |
| Handlers.DroppedArtifact | src/App.tsx:135 | a dropped file becomes an artifact of the step and process with its blob, and an empty MIME type becomes `application/octet-stream` |
| Handlers.NewArtifacts | src/App.tsx:134-137 | the rows for the dropped files get consecutive fresh keys, in file order |
| Handlers.AddArtifacts | src/App.tsx:133-138 | the drop loop adds exactly those rows, in order, under consecutive keys, and returns them |
| Handlers.AddedArtifactsOk | src/App.tsx:133-138 | dropped files keep the database well formed |
| Handlers.UpdateCopy | src/App.tsx:111-112 | updateStep's copy-and-unmark loop computes `UpdatedSteps` |
| Handlers.UpsertSteps | src/App.tsx:153-160 | saveAll's upsert loop computes the upserted table and the list with ids |
| Handlers.PruneSteps | src/App.tsx:161-163 | saveAll's pruning loop deletes exactly the process's rows whose key is not kept |
| Handlers.ImportStepRows | src/App.tsx:192-193 | importProcess's step loop computes the imported steps table and the id map |
| Handlers.ImportArtifactRows | src/App.tsx:194 | importProcess's artifact loop computes the imported artifacts table |
| Handlers.FindListed | src/App.tsx:168 | a stored process is found in the listing as it is stored |
| Handlers.SaveAllKeepsConsistent | src/App.tsx:147-176 | saveAll keeps the database well formed and keeps the same processes; it stamps the process with the save time and keeps its name; it leaves artifacts untouched and the process's rows exactly the saved list; it keeps existing ids and leaves other processes alone |
| Handlers.SecondSaveCreatesAgain | src/App.tsx:166-172 | as written, two saves of a process without a cloud id each make a remote create, although the first one stored the returned id |
| Handlers.SecondSaveUpdates | src/App.tsx:166-174 | with the listing read back after the id is stored, the second save makes no create and updates the remote process under that id |
| Transfer.ArtifactKeysOf | src/App.tsx:183 | the export's artifact keys are exactly the process's artifacts |
| Transfer.ExportedArtifacts | src/App.tsx:183-184 | the i-th exported artifact is the i-th stored artifact of the process without its blob |
| Transfer.ExportStripsBlobs | src/App.tsx:183-184 | no exported artifact carries a blob; each is a stored artifact of the process; every stored artifact of the process is exported |
| Transfer.BaseName | src/App.tsx:185 | the file name part is never empty |
| Transfer.ExportFileName | src/App.tsx:185 | the download name as written always ends in `.apo.json` |
| Transfer.NoBackslashUnchanged | src/App.tsx:185 | the pattern as written changes no name without a backslash |
| Transfer.NoBackslashSLeft | src/App.tsx:185 | what the pattern as written does achieve: no backslash followed by `s` is left |
| Transfer.ExportFileNameKeepsWhitespace | src/App.tsx:185 | a name with white space and no backslash keeps its white space in the file name |
| Transfer.IntendedExportFileName | src/App.tsx:185 | the intended file name holds no white space |
| Transfer.NoWhitespaceUnchanged | src/App.tsx:185 | the intended replacement changes no name without white space |
| Transfer.IntendedExportFileNameReplacesSpace | src/App.tsx:185 | the intended name of `a b` is `a_b.apo.json` |
| Transfer.ImportedName | src/App.tsx:191 | the imported process is named after the document's process, or `Imported Process`, followed by ` (import)` |
| Transfer.LastWith | src/App.tsx:193 | the position of the last document step with an old id, or -1 when none has it |
| Transfer.ImportStepsSpec | src/App.tsx:192-193 | document step i is stored under the i-th new key in the new process, with its other fields kept; each old id maps to the key of the last step that carried it; older rows are untouched |
| Transfer.ImportedIdAt | src/App.tsx:192-193 | an old id is mapped exactly when a document step carries it, to the new key of the last such step |
| Transfer.ImportArtifactsSpec | src/App.tsx:194 | document artifact j is stored under the j-th new key, moved to the new process, attached to its step's new key, without blob; older rows are untouched |
| Transfer.ImportDocumentSpec | src/App.tsx:190-195 | import adds exactly one new process row, then the steps and artifacts as above, and changes nothing stored before |
| Transfer.ImportedDocumentStep | src/App.tsx:193 | the i-th document step becomes the row under the i-th new step key |
| Transfer.ImportedDocumentArtifact | src/App.tsx:194 | the j-th document artifact becomes the row under the j-th new key, pointing at the new key of the last step with its old step id |
| Transfer.ImportAttachesArtifacts | src/App.tsx:193-194 | each imported artifact is attached to the imported copy of a document step that carried its step id |
| Transfer.ImportKeepsWellFormed | src/App.tsx:190-195 | importing keeps the database well formed |
| Editor.NewProcessNamesDistinct | src/App.tsx:78 | different process counts give different `Untitled Process n` names |
| Editor.CreatedOk | src/App.tsx:80 | the process createProcess adds is new and keeps the editor consistent |
| Editor.RenamedOk | src/App.tsx:86 | renaming keeps the editor consistent |
| Editor.SaveAllOk | src/App.tsx:147-176 | saveAll keeps the editor consistent, with every step of the saved list having an id |
| Editor.SaveAllParts | src/App.tsx:151-176 | the upsert loop, the pruning loop and the sync, each computed on its own, make up saveAll's effect as written, with the listing read from the stamped table before the cloud id is stored |
| Editor.DeletedOk | src/App.tsx:93-98 | deleting another process keeps the editor consistent |
| Editor.ImportedOk | src/App.tsx:190-195 | importing keeps the editor consistent |
| Editor.ImportParts | src/App.tsx:190-195 | the process row, the step loop and the artifact loop make up the imported database, and every artifact finds its step's new key |
| Editor.ArtifactRemovedOk | src/App.tsx:143 | removing an artifact keeps the editor consistent |
| Editor.App.constructor | src/App.tsx:60-72 | mounting reads the listing, opens its first process (its steps in order, its artifacts grouped, empty stacks) and is consistent |
| Editor.App.Select | src/App.tsx:61-72 | switching process loads its steps and grouped artifacts and empties both stacks; reselecting the open process changes nothing |
| Editor.App.Undo | src/App.tsx:29-36 | the session becomes `History.Undo` of the old one; the editor is marked dirty when something was undone |
| Editor.App.Redo | src/App.tsx:38-45 | the session becomes `History.Redo` of the old one; the editor is marked dirty when something was redone |
| Editor.App.KeyDown | src/App.tsx:47-54 | Ctrl/Cmd+Z undoes, Ctrl/Cmd+Shift+Z redoes, each marking the editor dirty exactly when something moved; any other key changes nothing |
| Editor.App.AddStep | src/App.tsx:101-107 | with no open process nothing changes; otherwise the edit is recorded and the list becomes `Appended` |
| Editor.App.UpdateStep | src/App.tsx:109-114 | the edit is recorded and the list becomes `UpdatedSteps` |
| Editor.App.TypeTools | src/App.tsx:274 | typing into a step's tools input leaves the text after the last comma pending, shows the chips `OnChange` gives, and records one stale updateStep per list `addMany` hands over |
| Editor.App.UpdateStale | src/App.tsx:109-114 | k updateStep calls in one handler, all reading the starting list: the history gains k copies of it and the list becomes the last call's |
| Editor.App.MoveStep | src/App.tsx:116-121 | a move past either end changes nothing and records nothing; otherwise the edit is recorded and the list becomes `Moved` |
| Editor.App.RemoveStep | src/App.tsx:123-127 | declining to remove a step with artifacts changes nothing; otherwise the edit is recorded and the list becomes `Removed` |
| Editor.App.AddProcess | src/App.tsx:77-81 | a new process row named `Untitled Process n+1` is added under the next key with the cloud id from the remote create; the listing is read back; one create call is logged when a backend is set |
| Editor.App.CreateProcess | src/App.tsx:76-82 | as AddProcess, and the new process is then open |
| Editor.App.RenameProcess | src/App.tsx:84-89 | the process is renamed and stamped; the listing is read back; a remote rename is logged only when a backend is set and the process has a cloud id |
| Editor.App.DeleteProcess | src/App.tsx:91-99 | declined: nothing changes; confirmed: the cascade delete, the listing read back, and its first process opened |
| Editor.App.SaveAll | src/App.tsx:147-178 | with no open process nothing changes; otherwise the database, the list, the listing and the remote calls are those of `SaveAllAsWritten`, and the editor is clean |
| Editor.App.SaveTransaction | src/App.tsx:151-176 | the transaction, the listing read at line 166 and the sync compute `SaveAllAsWritten` and a consistent state |
| Editor.App.Store | src/App.tsx:165-172 | the saved state is stored, the editor is clean, and the listing read during the save is shown |
| Editor.App.DropFiles | src/App.tsx:129-140 | with no open process nothing changes; a saved step gets one artifact per file, in order, added to its group; clock, dirty flag and listing are untouched then; an unsaved step is saved first (as SaveAll, moving the clock, clearing the dirty flag and showing its listing) and the files go to the id it received |
| Editor.App.SaveAndAttach | src/App.tsx:131-139 | saving first (as SaveAll, with its clock, dirty flag and listing), then attaching to the id the step received |
| Editor.App.AttachFiles | src/App.tsx:132-139 | one artifact per file under consecutive fresh keys, appended to the step's group; processes and steps untouched |
| Editor.App.RemoveArtifact | src/App.tsx:142-145 | the artifact row is deleted and the artifact leaves its step's group |
| Editor.App.ExportProcess | src/App.tsx:182-186 | no download with no open process; otherwise the exported document under `ExportFileName`, the name the regex as written gives |
| Editor.App.ImportProcess | src/App.tsx:188-197 | the database becomes the imported one, the listing is read back, and the open process stays open |
| Editor.App.StoreProcesses | src/App.tsx:196 | the new database is stored and the listing is read back |
| Editor.App.ImportRows | src/App.tsx:190-195 | the two import loops build exactly `ImportDocument`'s database, and it is consistent |

## Left out

- Rendering, React hooks, effects wiring, the keydown listener's registration and the `saving`
  flag: only the state changes of the handlers are modelled.
- `confirm` dialogs are boolean parameters (`confirmed`). `humanFileSize` uses floating point
  and is not part of this model.
- `resetAllData` deletes the whole database and reloads the page; it is not part of this model.
- `JSON.parse`, `JSON.stringify`, the download mechanics and object URLs are left out. The
  document is the datatype `ExportDoc`, and file contents are an opaque `Blob` handle.
- `src/lib/api.ts` is not part of this model. Remote calls are entries of a log, and the
  backend's answers are a `Replies` parameter. The answer to the steps upload has no observable
  effect, so it is not a parameter.
- Async interleaving, for example two handlers running at once, is not modelled: each handler is
  one sequential step. Each handler's `nowISO()` calls read one clock tick, so `createdAt` equals
  `updatedAt` for a new process.
- Editor.App.ImportProcess: requires every document artifact's `stepId` to be the id of a
  document step. When it is not, the source stores the artifact with `stepId: undefined`, which a
  row key cannot express.
- Editor.App.UpdateStep: requires `i` to be a position of the list. The source only calls it
  from a rendered step; any other `i` would write a partial row.
- Editor.App.MoveStep: requires `i` to be a position of the list, as the source's buttons
  guarantee.
- Editor.App.DropFiles: requires `i` to be a position of the list. The source reads `step.id`
  of `steps[i]` and would throw otherwise.
- Editor.App.RemoveArtifact: requires the artifact to have an id, as every stored artifact does.
- Text.ToUpper: models `toUpperCase` for ASCII letters only. Non-ASCII letters keep their case.
- Components.BadgeColor: returns the class names of the `className` string as a list, not the
  string.
- `nextRef` holds a step position or a text, and it is not re-resolved when steps move or are
  removed, just as in the source.
- The source mutates step objects in place (saveAll's `s.id = id`, updateStep's
  `copy[k].isEnd = false`). Snapshots are copies, so value semantics give the same observable
  lists; the aliasing itself is not modelled.

## Findings

The editor class follows the code as written. Each corrected definition stands on its own, with
its intended property proved about it.

| source | as written | input that shows it | evidently intended | confidence | as-written member | corrected member |
|---|---|---|---|---|---|---|
| src/App.tsx:185 | the regex literal `/\\s+/g` matches a backslash followed by one or more `s` | a process named `Q3 plan` is offered as `Q3 plan.apo.json` | `/\s+/g`: every run of white space becomes `_`, giving `Q3_plan.apo.json` | not executed; high, from the regex literal's syntax | Transfer.ExportFileNameKeepsWhitespace | Transfer.IntendedExportFileNameReplacesSpace |
| src/components.tsx:69-70 | every `addChip` call of `addMany` reads the chips the input was rendered with, and each `onChange` becomes an updateStep (src/App.tsx:274) built from the same list | pasting `a,b,` into the tools input of a step with no tools leaves the tools `["b"]` and records two edits | both pieces become tools | not executed; medium, from React's rule that state read inside a handler is the rendered value | Components.PastedPiecesKeepOnlyLast | Components.PastedPiecesAllKept |
| src/App.tsx:166-172 | the listing is read back before the remote create's id is stored, and saveAll looks the process up in the listing first | a process without a cloud id, a backend whose create returns `c`, and two saves in a row: both saves call create | the second save finds `c` and updates the remote process instead of creating another one | not executed; medium, since it relies on the listing being the state the next handler sees | Handlers.SecondSaveCreatesAgain | Handlers.SecondSaveUpdates |
