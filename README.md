# Operational checklist app — Dafny model

This project models the logic of a small checklist app for venue teams (kitchen,
bar, floor and stock sectors). In the app, staff fill in a per-shift checklist
(opening, `ABERTURA`, or closing, `FECHAMENTO`) with photo evidence. Managers
review the submitted records, and an administrator edits the catalog of sectors
and tasks. Everything is stored in the browser's `localStorage` through one
data-access object.

The model has one module per source file:

- `Db` (services/db.ts): the store is the class `Store`. Its field maps the four
  fixed keys (`cm_sectors`, `cm_employees`, `cm_tasks`, `cm_records`) to the
  lists they hold. JSON serialisation is taken to round-trip. Reads fall back to
  the seed catalog in `Seed` (constants.tsx), or to no records.
- `ChecklistForm` (components/ChecklistForm.tsx): the composer is the class
  `Form`, whose fields are the component's React state. `State()` gives that
  state as one `FormState` value, and every handler is a method. Each method's
  postcondition gives the new state as the old one with named fields replaced.
  The values put in those fields come from pure functions (`Toggle`,
  `AttachPhoto`, `AutoCompleted`, `RemoveAt`, `CurrentTasks`, `NewRecord`), and
  their properties are proved separately.
- `Reports` (components/Reports.tsx): the review page is the class
  `ReportsView`. Its `HandleReview` writes through the store. The applicable-task
  filter, the conformance percentage and the per-task evidence rows are pure
  functions.
- `Dashboard` (components/Dashboard.tsx): pure functions over the loaded
  records and sectors.
- `Settings` (components/Settings.tsx): the catalog page is the class
  `SettingsView`, which replaces its lists and saves them whole.
- The shared modules are `Types` (types.ts), `Lists` (the JavaScript array
  helpers the code uses), `Text` (ECMAScript `trim`) and `Scenarios`
  (properties that span several components, plus one seed-catalog walk-through).

These values are parameters rather than computed: record and task ids (the
app uses `Math.random`), sector ids and timestamps (`Date.now`), today's
`YYYY-MM-DD` string (`new Date()`), `prompt()` and `confirm()` answers, and
photos. Photos are opaque data-URL strings that the file reader delivers.

The model follows the code in these places, where a reader might expect otherwise:

- The code does not keep `completedTasks` within the applicable tasks. "Back"
  keeps the ids while the sector can change.
- The conformance figure can pass 100% (see Findings).
- `updateRecord` silently ignores an unknown id instead of failing.
- Sector deletion does not check references. On the dashboard's recent list,
  orphaned records show the fallback badge (`Dashboard.SectorBadge`,
  `Scenarios.RemovedSectorShowsUnknown`); the reports page and the settings task
  list show an empty icon and name.
- No photo is mandatory, and there is no zero-task confirmation.

## Model

| member | source | states |
|---|---|---|
| Db.Store.constructor | services/db.ts:13-34 | on empty storage the reads give the seed sectors, tasks and employees and no records |
| Db.Store.GetSectors | services/db.ts:13-16 | the stored sector list, or the seed sectors when the key is absent |
| Db.Store.GetEmployees | services/db.ts:19-22 | the stored employee list, or the seed employees when the key is absent |
| Db.Store.GetTasks | services/db.ts:25-28 | the stored task list, or the seed tasks when the key is absent |
| Db.Store.GetRecords | services/db.ts:31-34 | the stored record list, or the empty list when the key is absent |
| Db.Store.SaveSectors | services/db.ts:17 | only the sectors key is written; reading it back gives exactly the saved list; the other reads are unchanged |
| Db.Store.SaveEmployees | services/db.ts:23 | only the employees key is written; reading back gives the saved list; the other reads are unchanged |
| Db.Store.SaveTasks | services/db.ts:29 | only the tasks key is written; reading back gives the saved list; the other reads are unchanged |
| Db.Store.SaveRecord | services/db.ts:35-39 | records become `[r] + old`: one longer, `r` at index 0, the old records after it in order; catalog keys untouched |
| Db.Store.UpdateRecord | services/db.ts:40-44 | records become the id-wise replacement of the old list; an absent id leaves the list as it was; catalog keys untouched |
| Db.UpdateById | services/db.ts:42 | same length and order; each record whose id matches becomes the new record, every other one is unchanged |
| Db.UpdateMissingIsIdentity | services/db.ts:42 | an update whose id matches no record returns the list unchanged |
| Db.UpdateIdempotent | services/db.ts:42 | applying the same update twice equals applying it once |
| Db.UpdatePresentStores | services/db.ts:42 | when the id is present, the new record is in the result |
| Db.KeyNamesDistinct | services/db.ts:5-10 | the four storage keys are distinct strings |
| Seed.SeedTasksHaveSectors | constants.tsx:5-32 | every seed task refers to a seed sector |
| Lists.Filter | components/ChecklistForm.tsx:32 | `Array.prototype.filter`: the kept elements are exactly those satisfying the condition, each with its multiplicity in the input, in their input order (a subsequence) |
| Lists.FilterCount | components/Dashboard.tsx:16-18 | a filter keeps one element per input position whose element satisfies the condition |
| Text.Trim | components/ChecklistForm.tsx:88 | the result is the input with only a whitespace prefix and a whitespace suffix removed, and it has no whitespace at either end |
| Text.BlankIffAllSpace | components/ChecklistForm.tsx:164 | `!s.trim()` holds exactly when every character is ECMAScript whitespace |
| Text.UntrimmableIsFixed | components/ChecklistForm.tsx:88 | a string with no whitespace at either end trims to itself, and is blank only when empty |
| Text.TrimIdempotent | components/ChecklistForm.tsx:88 | trimming twice equals trimming once |
| Types.TasksFor | components/ChecklistForm.tsx:32 | the catalog tasks whose sector and shift match, in catalog order (a subsequence) and each exactly as often as the catalog lists it |
| Types.TasksForAppend | components/Settings.tsx:47 | appending a task to the catalog appends it to its own sector and shift's list and leaves every other list unchanged |
| Types.Ids | components/ChecklistForm.tsx:198 | the task ids, position by position |
| ChecklistForm.CanProceedIff | components/ChecklistForm.tsx:82 | the gate used by "next step" (:164), `Form.Valid`, `Proceed` and `HandleSubmit` opens exactly when a sector and a shift are chosen and the name has a character that is not whitespace, i.e. `employeeName.trim()` is not empty |
| ChecklistForm.CurrentTasks | components/ChecklistForm.tsx:32 | the catalog tasks whose sector equals the selection and whose shift equals the selected one, in catalog order and with the catalog's multiplicity; none while no shift is chosen |
| ChecklistForm.Toggle | components/ChecklistForm.tsx:34-38 | an absent id is appended at the end; a present id loses every occurrence while the other ids keep their order (a subsequence) and their multiplicity |
| ChecklistForm.ToggleTwice | components/ChecklistForm.tsx:34-38 | toggling twice restores membership, and restores the exact list when the id was absent |
| ChecklistForm.AttachPhoto | components/ChecklistForm.tsx:52-55 | the photo is appended to the task's list (missing counts as empty); every other task's list is unchanged |
| ChecklistForm.AttachPhotos | components/ChecklistForm.tsx:49-55 | a batch of loads appends all photos in order to that task; other tasks unchanged; an empty batch changes nothing |
| ChecklistForm.AttachPhotosStep | components/ChecklistForm.tsx:49-55 | one more load extends the batch by that photo |
| ChecklistForm.AutoCompleted | components/ChecklistForm.tsx:56-59 | loads for a task completed when the files were picked append nothing; otherwise each load appends the task id (membership, not uniqueness) |
| ChecklistForm.NewRecord | components/ChecklistForm.tsx:85-98 | the submitted record has the form's sector and shift, the trimmed name, status `CONCLUIDO`, and the form's completed ids, task photos, notes, problem report and general photos |
| ChecklistForm.Form.constructor | components/ChecklistForm.tsx:9-30 | an empty form on step 1 with the catalog loaded from the store |
| ChecklistForm.Form.SelectSector | components/ChecklistForm.tsx:118 | only the selected sector changes; completed ids are kept |
| ChecklistForm.Form.SelectType | components/ChecklistForm.tsx:137 | only the selected shift changes |
| ChecklistForm.Form.SetEmployeeName | components/ChecklistForm.tsx:155 | only the (untrimmed) name changes |
| ChecklistForm.Form.SetNotes | components/ChecklistForm.tsx:264 | only the notes change |
| ChecklistForm.Form.SetProblemReport | components/ChecklistForm.tsx:276 | only the problem report changes |
| ChecklistForm.Form.Proceed | components/ChecklistForm.tsx:163-165 | step 2 is entered exactly when sector and shift are chosen and the trimmed name is non-empty; `Valid()` keeps "step 2 implies that gate" |
| ChecklistForm.Form.Back | components/ChecklistForm.tsx:185 | back to step 1 with every other field, completed ids included, unchanged |
| ChecklistForm.Form.ToggleTask | components/ChecklistForm.tsx:218 | the completed list becomes `Toggle` of the old one; nothing else changes |
| ChecklistForm.Form.HandleTaskPhotoUpload | components/ChecklistForm.tsx:40-43 | only the task awaiting a photo changes |
| ChecklistForm.Form.OnTaskFileChange | components/ChecklistForm.tsx:45-66 | without a task nothing changes; otherwise the photos are appended to that task and the stale-snapshot auto-complete ids are appended, so the task is completed afterwards |
| ChecklistForm.Form.RemoveTaskPhoto | components/ChecklistForm.tsx:240-244 | exactly the photo at that index leaves that task's list; completed ids unchanged |
| ChecklistForm.Form.HandleGeneralPhotoUpload | components/ChecklistForm.tsx:68-79 | the general photos become the old ones followed by the loaded files |
| ChecklistForm.Form.RemoveGeneralPhoto | components/ChecklistForm.tsx:288-289 | exactly the general photo at that index is removed |
| ChecklistForm.Form.MarkAll | components/ChecklistForm.tsx:197-198 | the completed list becomes the current tasks' ids in order |
| ChecklistForm.Form.HandleSubmit | components/ChecklistForm.tsx:81-105 | saves iff the gate holds; then exactly one record, `NewRecord` of the form, goes in front of the stored records; otherwise neither form nor store changes |
| Reports.FindById | components/Reports.tsx:24 | none exactly when no record has the id; otherwise the first record of the list with that id |
| Reports.Reviewed | components/Reports.tsx:23-28 | an id missing from the view leaves the stored list; otherwise same length, records of other ids unchanged, records of that id become the view's record with the new status |
| Reports.ReviewChangesOnlyStatus | components/Reports.tsx:26-27 | with distinct ids, a review changes the status of the reviewed record and nothing else |
| Reports.ReviewStatus | components/Reports.tsx:221-229 | the two buttons set `REVISAO_SOLICITADA` and `CONCLUIDO`; neither sets `REFEITO` |
| Reports.ApplicableTasks | components/Reports.tsx:131 | the catalog tasks of the record's sector and shift, in catalog order and with the catalog's multiplicity, so their number is the conformance denominator |
| Reports.ConformanceOf | components/Reports.tsx:115 | no completed ids shows 0 (including 0/0); otherwise with applicable tasks the percentage rounded half up; completed ids without applicable tasks give `Infinity%` |
| Reports.ConformanceAtMost100 | components/Reports.tsx:115 | when completed ≤ applicable it is a percentage ≤ 100, and exactly 100 when they are equal and positive |
| Reports.RecordConformance | components/Reports.tsx:115 | the detail view counts every completed id against the applicable tasks; no completed ids shows 0% |
| Reports.CompletedApplicable | components/Reports.tsx:130-134 | the applicable tasks whose id the record lists as completed (the rows shown completed), in catalog order and with their multiplicity |
| Reports.CorrectedConformance | components/Reports.tsx:115 | the rounded share of applicable tasks shown completed: always a percentage of at most 100, 100 when all are completed, 0 when none is |
| Reports.TaskLines | components/Reports.tsx:130-134 | one row per applicable task in order; completed iff its id is in the record; its photos, or none when absent |
| Reports.ReportsView.constructor | components/Reports.tsx:17-21 | records, sectors and tasks loaded from the store, nothing selected |
| Reports.ReportsView.Open | components/Reports.tsx:63-66 | the clicked record becomes the open one; lists unchanged |
| Reports.ReportsView.Close | components/Reports.tsx:106 | nothing is open afterwards; lists unchanged |
| Reports.ReportsView.HandleReview | components/Reports.tsx:23-30 | an id missing from the view changes nothing; otherwise the store is updated with the status-changed record, the view list equals the store list, and the open record is replaced iff its id is the reviewed one |
| Reports.ReportsView.ReviewSelected | components/Reports.tsx:220-229 | reviewing the open record: no stored record gains status `REFEITO`; the page's sectors and tasks and the store's catalog are unchanged; the open record becomes the view's first record of its id with the button's status |
| Dashboard.TodayRecords | components/Dashboard.tsx:16-17 | the records dated today, in stored order (a subsequence) and each as often as stored; their number is the number of stored positions dated today |
| Dashboard.TodayOfNewerPrefix | components/Dashboard.tsx:17 | when today's records were all saved after the older ones, today's list is that newest prefix |
| Dashboard.ProblemsCount | components/Dashboard.tsx:18 | the number of stored positions dated today with a non-empty problem report; hence at most today's count, zero iff no record of today has one, equal to today's count iff all have one |
| Dashboard.ReportedTodayCount | components/Dashboard.tsx:16-18 | filtering today's records by "has a problem report" keeps one record per stored position that is dated today and has one |
| Dashboard.CountForSector | components/Dashboard.tsx:21 | the number of positions of today's records that belong to that sector; hence at most today's count, and zero iff none does |
| Dashboard.ChartData | components/Dashboard.tsx:20-26 | one bar per sector in sector order, named after it, as high as that sector's count of today's records |
| Dashboard.ChartCoversToday | components/Dashboard.tsx:20-26 | with distinct sector ids, the bars sum to the number of today's records with a known sector, never more than today's count |
| Dashboard.Summary | components/Dashboard.tsx:33-37 | problems ≤ today ≤ total; total is the number of records and the sector card the number of sectors |
| Dashboard.Recent | components/Dashboard.tsx:74 | the first `min(5, n)` records |
| Dashboard.RecentAfterSave | components/Dashboard.tsx:74 | after a save the new record heads the recent list, followed by the previous first four |
| Dashboard.SectorBadge | components/Dashboard.tsx:75-80 | the icon and name of the first sector with the record's id; a missing sector shows `📁` and `Desconhecido`, and an empty icon or name falls back the same way |
| Settings.WithoutSector | components/Settings.tsx:31 | every sector with that id is removed and the others kept in order (a subsequence) and as often as listed; the list is unchanged iff no sector has the id |
| Settings.WithoutTask | components/Settings.tsx:57 | every task with that id is removed and the others kept in order (a subsequence) and as often as listed; the list is unchanged iff no task has the id |
| Settings.RemovedTaskLeavesChecklists | components/Settings.tsx:57 | after a removal, the list of every sector and shift is the old one without that id, in order |
| Settings.SettingsView.constructor | components/Settings.tsx:16-19 | catalog loaded, sectors tab, empty task form with `ABERTURA` |
| Settings.SettingsView.ListedTasks | components/Settings.tsx:143 | the tasks in reverse stored order, the newest first |
| Settings.SettingsView.SetTab | components/Settings.tsx:70 | only the tab changes |
| Settings.SettingsView.SetNewTaskDesc | components/Settings.tsx:108 | only the description field changes |
| Settings.SettingsView.SetNewTaskSector | components/Settings.tsx:114 | only the chosen sector changes |
| Settings.SettingsView.SetNewTaskType | components/Settings.tsx:122 | only the chosen shift changes |
| Settings.SettingsView.AddSector | components/Settings.tsx:21-27 | a cancelled or empty answer changes nothing; otherwise one sector with icon `📁` is appended, the store holds the page's list, tasks and records untouched |
| Settings.SettingsView.RemoveSector | components/Settings.tsx:29-34 | declined: nothing changes; confirmed: the page and the store lose every sector with that id, tasks and records untouched |
| Settings.SettingsView.AddTask | components/Settings.tsx:36-53 | a blank description or no sector changes nothing; otherwise one task with the trimmed description, chosen sector and shift is appended and saved, and only the description field is cleared |
| Settings.SettingsView.RemoveTask | components/Settings.tsx:55-60 | declined: nothing changes; confirmed: the page and the store lose every task with that id |
| Scenarios.ApplicableIsCurrent | components/Reports.tsx:131 | a submitted record's applicable tasks are the tasks the composer listed |
| Scenarios.RowOfApplicable | components/Reports.tsx:130-134 | every applicable task has a row, completed iff its id is in the record, showing that task's photos |
| Scenarios.AttachedPhotosShownInReport | components/ChecklistForm.tsx:52-59 | after attaching photos to a listed task and submitting, the report shows it completed with the old photos followed by the new ones |
| Scenarios.AllApplicableDone | components/Reports.tsx:130-134 | when every applicable task's id is completed, the corrected count is all of them and every evidence row shows completed |
| Scenarios.MarkAllIsFullConformance | components/ChecklistForm.tsx:198 | "mark all" then submit, catalog unchanged, shows 100% and every task completed |
| Scenarios.BackKeepsStaleIds | components/ChecklistForm.tsx:185 | after "back" and a sector change, the record lists a completed task that is not among its applicable tasks |
| Scenarios.RemovedSectorShowsUnknown | components/Dashboard.tsx:78-80 | after a sector is removed, its records show the fallback badge |

## Findings

| source | as written | input that shows it | evidently intended | confidence | as-written member | corrected member |
|---|---|---|---|---|---|---|
| components/Reports.tsx:115 | conformance divides the number of completed ids, applicable or not, by the number of applicable tasks | mark all 4 kitchen opening tasks, go back, pick the bar (2 opening tasks), submit: the report shows 200% while both bar tasks show as not done | the share of applicable tasks shown as completed, at most 100% | medium, not executed | Reports.ConformanceOver100Example | Reports.CorrectedConformance |

`Reports.CompletedApplicable` gives the applicable tasks the record marks
completed, in catalog order and with their multiplicity. `Reports.CorrectedConformance`
is the rounded share of those among the applicable tasks, is always a percentage
of at most 100, and is 100 when every applicable task is completed. The page
itself (`Reports.RecordConformance`) is modelled as written.

## Left out

- Rendering, CSS, routing and `navigate`. The one-second `setTimeout` after a
  submit is also left out, so `isSubmitting` stays `true` in the model.
- Recharts, whose only input is `ChartData`.
- `FileReader` and data-URL encoding. A photo is an opaque string, and the
  reader callbacks run in file order right after the change event, with no
  other event in between.
- `localStorage` and the `JSON.parse`/`JSON.stringify` round trip.
  `Store.Valid()` assumes every key holds its own entity's list.
- Random and clock-based ids and dates, which are parameters.
- Locale formatting with `toLocaleDateString` and `toLocaleTimeString`.
- Floating point in the conformance figure. `Reports.ConformanceOf` uses exact
  rational rounding (`Math.round` rounds halves up), so it can differ from the
  double result at exact halves. `Infinity%` is kept only as a marker with no
  number.
- The admin passcode gate (components/AdminGuard.tsx), the navigation layout
  (components/Layout.tsx) and the external text-generation call
  (geminiService.ts), along with `generateInsight` and the insight and
  photo-viewer state in components/Reports.tsx.
- Records from earlier revisions without `taskPhotos` (the `?.` on
  components/Reports.tsx:134). In the model every record has a photo map,
  though not every task has an entry in it.
- The selection setters of the form (`SelectSector`, `SelectType`,
  `SetEmployeeName`) require step 1, because those controls only exist there.
  This is how `Form.Valid()` keeps "step 2 implies the gate". The `isSubmitting`
  guard on the submit button is not part of `HandleSubmit`.
- `Reports.ConformanceAtMost100`: this is weaker than "100% iff all completed",
  because rounding shows 299 out of 300 as 100%.
