# ModuleTrack core in Dafny

ModuleTrack is a dashboard that tracks fabrication-yard modules through
shipment and inspection. This project models its record-handling core as
pure functions over a sequence of `Module` records:

- **Server actions** (`Actions`). `updateModule` validates the submitted
  values, finds the record by id, merges the values into it and writes it
  back at the same position. A submitted date that is empty or absent keeps
  the stored date. The merge also attaches the anomaly detector's verdict.
  `addModule` validates, builds a record whose id is the list length plus
  one, and puts it at the front of the list.
- **Schema** (`Schema`). `yard`, `location` and `moduleNo` must be
  non-empty. The RFLO date status must be one of "Date Confirmed",
  "1st Quarter-2026" or "Pending". The server actions and the form share
  this schema.
- **Module form** (`ModuleForm`). Covers the dialog's default values for
  creating and for editing, the schema check before submission, and the
  choice between `updateModule` and `addModule`. The dialog closes only on
  success.
- **Table columns** (`Columns`). Covers the membership filters, the status
  badge variant, and how empty values are shown ("N/A" and "-"). The
  anomaly warning and the bold module number appear only for anomalies.
- **Column import** (`ColumnImport`, `ColumnImportAsWritten`). Pasted text
  is split into trimmed, non-empty lines. The chosen column label names one
  field. For any field other than the module number, the import refuses a
  line count that differs from a non-empty collection. The code departs from
  what it evidently means in three places (see Findings), so the import is
  modelled twice:
  - `ColumnImport` is the corrected import. Pasting module numbers creates
    one document per line. Into an empty collection it creates one document
    per line holding the line in the target field. Otherwise it writes line
    i into document i in one batched write.
  - `ColumnImportAsWritten` is the code as written. Pasting module numbers
    creates two documents per line and counts one. Into an empty collection
    the created documents hold only the defaults. The positional update
    throws before any write.

  Both refuse the same inputs for the same reasons
  (`ColumnImportAsWritten.AsWrittenAgreesOnRejections`). A refused import
  is an `Outcome` that carries no collection, so a refusal leaves the
  collection as it was by construction.

The anomaly detector (an LLM prompt) is a function parameter
`AnomalyInput -> Verdict`. The document store is the oracle `Firestore`.
It says whether the k-th write of an import is accepted and which id the
k-th created document gets. A collection is the sequence that `getDocs`
returns. The in-memory list of the server actions and the document
collection of the import are both a `seq<Module>`.

The record is a superset of the declared type. It adds `byWhom`,
`isAnomaly`, `anomalyExplanation` and `shipmentDate`, which the actions and
the import write.

The declared type makes `rfloDate`, `shipmentNo`, `yardReport` and
`islandReport` mandatory strings and `signedReport` a mandatory boolean.
The code disagrees: `addModule` passes through absent optional keys, and the
import creates documents without them. These keys are therefore `Option`s.

`rfloDateStatus` is text as well. The corrected import writes any pasted
line into it (`ColumnImport.ImportCanStoreUnlistedStatus`), and the stored
documents are not checked against the schema. The code as written never
stores such a line: its creates write "Pending" after the target key and its
positional update throws. The `Status` enum and `ParseStatus` describe the
three literals that the declared type and the schema allow.

The positional update pairs the pasted values with the stored documents in
`getDocs` order; it does not look documents up by module number. No import
path de-duplicates by module number.

## Model

| member | source | states |
|---|---|---|
| `Types.ParseStatus` | src/lib/types.ts:8 | a text is a status exactly when it is one of the three literals, and then it is that status's literal |
| `Types.StatusRoundTrip` | src/lib/types.ts:8 | every status written as its literal reads back as itself |
| `Types.StatusLabelsDistinct` | src/lib/types.ts:8 | there are exactly three distinct status literals and every status has one |
| `Schema.Validate` | src/lib/actions.ts:9-20 | an issue is reported for each empty required field and for a status outside the three literals, and for nothing else |
| `Schema.ValidateOrdered` | src/lib/actions.ts:9-20 | there is at most one issue per key, and the issues are listed in the schema's key order |
| `Schema.ValidIff` | src/components/module-table/module-form.tsx:31-41 | values are accepted exactly when yard, location and module number are non-empty and the status is listed |
| `Actions.UpdatedBy` | src/lib/actions.ts:54 | the closing segment names `byWhom`, or "N/A" when it is empty or absent |
| `Actions.Present` | src/lib/actions.ts:56 | filtering the reports keeps only non-empty texts, each one a present entry; all entries present keeps them all, none present keeps nothing |
| `Actions.PresentIsFilter` | src/lib/actions.ts:56 | a single entry is kept exactly when it is a non-empty text, and filtering a concatenation is the concatenation of the filtered parts, so every non-empty text is kept, in order |
| `Actions.ProgressNotes` | src/lib/actions.ts:51-57 | the joined notes always end with the "Updated by: X" segment |
| `Actions.ProgressNotesExact` | src/lib/actions.ts:51-57 | the notes are the yard report and " \| " when it is non-empty, then the island report and " \| " when it is non-empty, then "Updated by: X" |
| `Actions.ProgressNotesShape` | src/lib/actions.ts:51-57 | the notes always end with "Updated by: X"; a yard report leads them, followed by " \| "; an island report comes right before the closing segment; with no reports the notes are that segment alone |
| `Actions.FindIndex` | src/lib/actions.ts:43-47 | the result is the first position holding the id, and "none" exactly when no record has it |
| `Actions.Merge` | src/lib/actions.ts:67-73 | the id and keys outside the schema are kept; required keys are overwritten; optional keys are overwritten when submitted and kept when absent; the date keeps its old value unless a non-empty date is submitted; the anomaly keys carry the verdict |
| `Actions.UpdateModule` | src/lib/actions.ts:32-80 | invalid values return the schema's issues and an unknown id returns "Module not found.", both with the list unchanged; success happens exactly for valid values and a present id; then the list keeps its length and only the first record with that id changes, becoming the merge with the detector's verdict on these values |
| `Actions.UpdateKeepsIdAndStatuses` | src/lib/actions.ts:41-75 | a successful update keeps the requested id, and the list's statuses stay valid |
| `Actions.MergeIdempotent` | src/lib/actions.ts:67-73 | merging the same values twice equals merging once |
| `Actions.MergeLastVerdictWins` | src/lib/actions.ts:67-73 | merging the same values again under a second verdict equals merging once under the second verdict |
| `Actions.ResubmitKeepsLastVerdict` | src/lib/actions.ts:43-75 | submitting the same update twice, with the detector free to answer differently each time, leaves the list as the second submission alone would: the second verdict wins and every other key is as after one update |
| `Actions.UpdateIdempotent` | src/lib/actions.ts:43-75 | when the detector gives the same verdict both times, submitting the same update twice leaves the list as one submission does |
| `Actions.AddModule` | src/lib/actions.ts:82-103 | invalid values return the schema's issues with the list unchanged; valid values put the new record at the front, and the list grows by exactly one |
| `Actions.NewModule` | src/lib/actions.ts:92-98 | the new record's id is digits without a leading zero whose value is old length + 1, which is exactly `toString()` of that count; every submitted key is copied; the date is the submitted one when non-empty and "" otherwise; `isAnomaly` is false, the explanation empty, and the keys the schema lacks are absent |
| `Actions.AddModuleRecord` | src/lib/actions.ts:91-98 | the new id is digits without a leading zero whose value is old length + 1, that is, the decimal rendering; the submitted keys are copied; the date is the submitted one or ""; there is no anomaly and the explanation is empty |
| `Actions.AddKeepsStatuses` | src/lib/actions.ts:83-100 | adding keeps every status in the list valid |
| `Actions.SuccessiveAddsHaveDistinctIds` | src/lib/actions.ts:93 | two additions in a row give records with different ids |
| `Text.NatToDecimal` | src/lib/actions.ts:93 | `toString()` of a count is a non-empty string of digits without a leading zero |
| `Text.DecimalRoundTrip` | src/lib/actions.ts:93 | reading the rendered id back as a number gives the count |
| `Text.DecimalCanonical` | src/lib/actions.ts:93 | a non-empty digit string without a leading zero is the `toString()` of the number it denotes, so digits, no leading zero and the value pin the id down |
| `ModuleForm.DefaultValues` | src/components/module-table/module-form.tsx:55-65 | when creating, every text is "" and the status is "Pending"; when editing, each value is the record's key, or "" (or "Pending" for the status) when that key is missing or empty |
| `ModuleForm.Submit` | src/components/module-table/module-form.tsx:68-87 | values the schema rejects call no action; otherwise editing calls `updateModule` with the edited record's id and creating calls `addModule`; the dialog stays open exactly when the action did not succeed |
| `ModuleForm.SubmittedValuesPassActionSchema` | src/components/module-table/module-form.tsx:70-72 | the action never reports schema issues for a submission the form let through; adding then always succeeds, and so does editing a record still in the list |
| `ModuleForm.ResubmitDefaultsKeepsRecord` | src/components/module-table/module-form.tsx:55-72 | opening a stored record and saving it unchanged closes the dialog and keeps every shown key: required keys, status and date exactly, optional texts up to absent-versus-empty |
| `Columns.FilterRows` | src/components/module-table/columns.tsx:51-88 | each row occurs in the result as often as in the table when its cell value is selected and not at all otherwise; all rows are kept when every row matches |
| `Columns.FilterRowsAppend` | src/components/module-table/columns.tsx:51-88 | filtering two tables joined is joining their filtered rows, so the rows keep their order |
| `Columns.FilterRowsIdempotent` | src/components/module-table/columns.tsx:51-52 | filtering twice equals filtering once, and selecting nothing hides every row |
| `Columns.BadgeVariant` | src/components/module-table/columns.tsx:83-84 | "Date Confirmed" and only it gives the default badge, "1st Quarter-2026" and only it gives secondary, and every other text gives outline |
| `Columns.BadgeDistinguishesStatuses` | src/components/module-table/columns.tsx:83-84 | on the three statuses the badge variant is different for each status |
| `Columns.RfloDateCell` | src/components/module-table/columns.tsx:65-68 | an empty or absent date shows "N/A"; only a non-empty date reaches the formatter, unchanged |
| `Columns.TextCell` | src/components/module-table/columns.tsx:94-112 | a report or by-whom cell shows its text when non-empty and "-" otherwise, and is never blank |
| `Columns.RenderModuleNo` | src/components/module-table/columns.tsx:27-43 | the warning (holding the explanation) and the bold style appear exactly when `isAnomaly` is true |
| `ColumnImport.ColumnMapping` | src/components/module-table/column-import-form.tsx:24-31 | a label maps to a field exactly when it is one of the six offered labels; "Module No." maps to the module number |
| `ColumnImport.ColumnMappingBijective` | src/components/module-table/column-import-form.tsx:24-31 | the six labels name six different fields, and every field has a label |
| `ColumnImport.SetField` | src/components/module-table/column-import-form.tsx:121 | a one-key update sets that field to the line and changes no other field or key |
| `ColumnImport.FieldsDetermineModule` | src/components/module-table/column-import-form.tsx:121 | documents agreeing on the six fields and on every other key are equal, so the contract of `SetField` pins its result down |
| `Text.Split` | src/components/module-table/column-import-form.tsx:52 | splitting gives at least one piece, and no piece contains the separator |
| `Text.JoinSplit` | src/components/module-table/column-import-form.tsx:52 | joining the split pieces with the separator gives back the pasted text |
| `Text.Trim` | src/components/module-table/column-import-form.tsx:52 | trimming removes only whitespace from the two ends, leaves neither end whitespace, and leaves trimmed text unchanged |
| `ColumnImport.CleanLinesAreClean` | src/components/module-table/column-import-form.tsx:52 | every trimmed, kept line is non-empty with no whitespace at either end, and contains '\n' only if a split piece did |
| `ColumnImport.PastedLines` | src/components/module-table/column-import-form.tsx:52 | no parsed line is empty, starts or ends with whitespace, or contains '\n' |
| `ColumnImport.CleanLinesIsTrimFilter` | src/components/module-table/column-import-form.tsx:52 | a single piece gives its trimmed text exactly when that is non-empty, and cleaning pieces joined is joining their cleaned lines, so every non-blank piece is kept, trimmed and in order |
| `ColumnImport.PastedLinesRoundTrip` | src/components/module-table/column-import-form.tsx:52 | pasting clean single-line values one per line gives back exactly those values |
| `ColumnImport.AcceptedPrefix` | src/components/module-table/column-import-form.tsx:104-116 | the awaited writes run up to the first refused one |
| `ColumnImport.CreateEach` | src/components/module-table/column-import-form.tsx:104-116 | if every create is accepted, all documents are appended and counted; otherwise the import fails at the first refused create, with the creates before it kept |
| `ColumnImport.Positional` | src/components/module-table/column-import-form.tsx:118-125 | (corrected import) the batch keeps the collection's length and sets document i's target field to line i |
| `ColumnImport.Route` | src/components/module-table/column-import-form.tsx:72-127 | (corrected import) a mismatch is refused exactly for a non-module-number field, a non-empty collection and a different line count; a finished import grows the collection by the created count, and the counts add up to the line count; a failed import keeps the existing documents in front |
| `ColumnImport.Import` | src/components/module-table/column-import-form.tsx:49-127 | (corrected import) an empty column choice or zero lines is refused before any write; a finished import grows it by the created count; a failed import keeps the existing documents in front |
| `ColumnImport.ImportModuleNumbers` | src/components/module-table/column-import-form.tsx:72-87 | (corrected import) pasting module numbers appends one document per line, holding the line, empty yard, location, shipment date and shipment number, and status "Pending"; created equals the line count and updated is 0 |
| `ColumnImport.ImportRejectsMismatch` | src/components/module-table/column-import-form.tsx:94-101 | outside "Module No.", the import is refused exactly when the collection is non-empty and the line count differs, and it reports both numbers |
| `ColumnImport.ImportIntoEmptyStore` | src/components/module-table/column-import-form.tsx:103-116 | (corrected import) outside "Module No.", an empty collection gets one document per line, with the line in the target field and an empty module number |
| `ColumnImport.ImportPositional` | src/components/module-table/column-import-form.tsx:117-126 | (corrected import) with as many lines as documents, document i gets line i in the target field and nothing else changes; updated is the collection size and created is 0 |
| `ColumnImport.BatchUpdateIsAllOrNothing` | src/components/module-table/column-import-form.tsx:117-126 | (corrected import) the positional updates either all apply or, when the batch is refused, the collection is unchanged |
| `ColumnImport.CreatesAreNotRolledBack` | src/components/module-table/column-import-form.tsx:74-116 | the first refused create stops the import, and the documents created before it remain |
| `ColumnImport.ImportKeepsStatusesOffStatusColumn` | src/components/module-table/column-import-form.tsx:63-127 | importing into any column except the status column keeps every status valid |
| `ColumnImport.ImportCanStoreUnlistedStatus` | src/components/module-table/column-import-form.tsx:121 | (corrected import) pasting "Shipped" into the status column stores a status that is not one of the three literals |
| `ColumnImportAsWritten.DoubleCreates` | src/components/module-table/column-import-form.tsx:74-87 | the module-number loop as written makes at most two documents per line; it stops exactly when an awaited create is refused, and otherwise keeps at least one document per line |
| `ColumnImportAsWritten.RouteAsWritten` | src/components/module-table/column-import-form.tsx:72-127 | as written, a mismatch is refused exactly as in the corrected import; a positional update always fails unchanged; module numbers add between one and two documents per counted line; every finished import keeps the existing documents first and counts one per line |
| `ColumnImportAsWritten.ImportAsWritten` | src/components/module-table/column-import-form.tsx:49-127 | as written, an empty column choice or zero lines is refused; a finished import counts one created document per line and keeps the existing documents in front |
| `ColumnImportAsWritten.DoubleCreatesAllAccepted` | src/components/module-table/column-import-form.tsx:74-87 | when every write is accepted, the module-number loop as written creates each document twice |
| `ColumnImportAsWritten.TwiceContents` | src/components/module-table/column-import-form.tsx:83-85 | positions 2i and 2i+1 of the created documents both hold line i's document |
| `ColumnImportAsWritten.TwiceAfterStore` | src/components/module-table/column-import-form.tsx:83-85 | after the existing documents, each pasted module number occupies two consecutive new documents |
| `ColumnImportAsWritten.AsWrittenAgreesOnRejections` | src/components/module-table/column-import-form.tsx:54-101 | the code as written refuses exactly what the intended import refuses, for the same reason |
| `ColumnImportAsWritten.AsWrittenCreatesTwicePerLine` | src/components/module-table/column-import-form.tsx:74-87 | as written, pasting module numbers adds two documents per line, both holding the line, while the reported count is one per line |
| `ColumnImportAsWritten.DoubleCreateCounterexample` | src/components/module-table/column-import-form.tsx:83-86 | pasting "M1" adds two documents and reports one; the intended import adds one |
| `ColumnImportAsWritten.AsWrittenDropsPastedValue` | src/components/module-table/column-import-form.tsx:105-113 | as written, documents created in an empty collection hold only the defaults, whichever writes the store refuses; the target field never gets the line; with no refusal there is one document per line |
| `ColumnImportAsWritten.CreateBlanks` | src/components/module-table/column-import-form.tsx:103-116 | creating default documents in an empty collection leaves only default documents with their assigned ids, whichever writes are refused, and all of them when none is |
| `ColumnImportAsWritten.DroppedValueCounterexample` | src/components/module-table/column-import-form.tsx:105-113 | pasting "YardA" into Location on an empty collection leaves the location "" as written, and "YardA" as intended |
| `ColumnImportAsWritten.AsWrittenPositionalNeverWrites` | src/components/module-table/column-import-form.tsx:117-125 | as written, the positional update fails with the collection unchanged |
| `ColumnImportAsWritten.MissingReferenceCounterexample` | src/components/module-table/column-import-form.tsx:120 | pasting "YardA" into Location over one document changes nothing as written, and sets the location as intended |

## Findings

| source | as written | input that shows it | evidently intended | confidence | as-written member | corrected member |
|---|---|---|---|---|---|---|
| src/components/module-table/column-import-form.tsx:83-86 | each pasted module number is created by an extra create that is not awaited and then by an awaited one, while `createdCount` grows by one | column "Module No.", text "M1", empty collection: two documents, "Created 1" | one document per line, so the collection grows by the created count | not executed; high | `ColumnImportAsWritten.DoubleCreateCounterexample` | `ColumnImport.ImportModuleNumbers` |
| src/components/module-table/column-import-form.tsx:105-113 | the object literal puts `[targetField]: line` first. Keys listed after it (`yard`, `location`, `shipmentDate`, `shipmentNo`, `rfloDateStatus`) overwrite it, so every target field except the module number loses the line | column "Location", text "YardA", empty collection: the new document's location is "" | the target field holds the line | not executed; high | `ColumnImportAsWritten.DroppedValueCounterexample` | `ColumnImport.ImportIntoEmptyStore` |
| src/components/module-table/column-import-form.tsx:17, 120 | `doc` is called but never imported, so the first positional update throws, the error is caught and nothing is committed | column "Location", text "YardA", one stored document: an error and no change | a batched one-key update per document | not executed; medium (a type-checked build would refuse this file) | `ColumnImportAsWritten.MissingReferenceCounterexample` | `ColumnImport.ImportPositional` |

## Left out

- The detector's prompt and model call are not modelled. It is a function parameter whose answer depends only on its input. Failures of the call are not modelled either.
- The document-store SDK wrappers (`src/lib/firestore-mutations.ts`) and SDK set-up (`src/firebase/server.ts`) are foreign calls. Only the accept/refuse outcome of each write and the assigned ids are modelled.
- The import's check that the store is available, and failures of the `getDocs` read: the model assumes the read succeeds.
- Where new documents appear in later `getDocs` results: the store orders them by document id, but the model appends them.
- Pages, layouts, navigation, the loading skeleton, the toolbar, row actions, toasts, `useTransition`, `revalidatePath` and the 1 s delay in `getModules`: these are UI, I/O and scheduling.
- Date formatting of the RFLO date (date-fns, locale and time zone). The model stops at the raw text handed to the formatter.
- The text of zod's enum error. `StatusInvalid` carries the received text instead. The shape of `flatten().fieldErrors` is modelled as a list of issues in schema order.
- A present key whose value is explicitly `undefined` is treated as absent.
- An unmapped non-empty column label cannot come from the dialog's select. The model refuses it (`UnknownColumn`); the code would write a key named "undefined".
- Overlapping imports or submissions: the model runs each action alone.
- Spreadsheet and PDF ingestion, date-serial conversion, header synonyms, and de-duplication by module number: none of the modelled files implements them.
- `ColumnImport.ImportModuleNumbers`, `ColumnImport.ImportIntoEmptyStore`: they assume every create is accepted. The refused-write case is stated separately by `ColumnImport.CreatesAreNotRolledBack`.
- `ColumnImportAsWritten.DoubleCreates`: when a create is refused, it bounds the created documents between one and two per line and says when the loop stops, but not which documents remain. The exact contents are stated only for the all-accepted case, because that is the case the findings need.
- `ColumnImportAsWritten.AsWrittenCreatesTwicePerLine`: it assumes every write is accepted, for the same reason.
