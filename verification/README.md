# Task tracker core, modelled in Dafny

This project models the core of a personal goal tracker. The tracker has three kinds of task:

- **daily**: done on N distinct days;
- **progress**: a value accumulated towards a target;
- **one-time**: done once.

The model covers these parts of the program:

- the task union and what is derived from it: type guards, completion, progress percentage, "done today";
- description normalisation and the request-body validators;
- the owner-scoped task repository, over a tasks table and a daily-completions table;
- the HTTP handlers' status decisions, and how a PUT body is rebuilt into a task;
- the client store's transitions;
- locale detection;
- the planning part of the migration converter.

Every operation is a pure function. I/O becomes an explicit parameter:

- the clock is the `now` string;
- a generated id is the `freshId` string;
- a database is a `Db` value of two row sequences;
- an API response is an `ApiResult`;
- the parts of the file system the converter reads are values too.

Modules follow the source files:

| module | file | models |
|---|---|---|
| `Common` | `common.dfy` | `Option` and `Result` |
| `TaskModel` | `task.dfy` | `src/models/task.ts` |
| `Text` | `text.dfy` | `src/utils/text.ts` |
| `Schemas` | `schemas.dfy` | `worker/schemas.ts` |
| `TaskQueries` | `task_queries.dfy` | `worker/db/task-queries.ts` |
| `TaskRoutes` | `task_routes.dfy` | `worker/task-routes.ts` |
| `TaskStore` | `task_store.dfy` | `src/stores/task-store.ts` |
| `Locales` | `locales.dfy` | `src/locales/index.ts` |
| `ConvertMigrations` | `convert_migrations.dfy` | `scripts/convert-migrations.ts` |

Numbers (targets, values, day counts) are `real`. Strings are sequences of code points.

## Model

| member | source | states |
|---|---|---|
| TaskModel.ExactlyOneGuard | src/models/task.ts:58-68 | exactly one of the three type guards holds for every task, and each guard holds exactly when the task carries that variant's fields |
| TaskModel.GetTaskProgress | src/models/task.ts:86-98 | progress never exceeds 100; it is non-negative for daily tasks and for progress tasks with a non-negative value; a one-time task is at 0 or 100, and at 100 exactly when its completion date is a non-empty string |
| TaskModel.IsTaskCompleted | src/models/task.ts:71-98 | a daily or progress task with a positive target is completed exactly when its progress is 100, and a task at 100 is always completed |
| TaskModel.OneTimeCompletionVersusProgress | src/models/task.ts:71-98 | for a one-time task, completion and 100% agree except for an empty completion date, which counts as completed at 0% |
| TaskModel.Includes | src/models/task.ts:109 | `includes` is true exactly when the element occurs in the array |
| TaskModel.IsDailyTaskCompletedToday | src/models/task.ts:107-110 | a daily task is done today exactly when some completed date equals today's date |
| Text.NormalizeDescription | src/utils/text.ts:11-13 | the output is never longer than the input, and is empty only for empty input |
| Text.NormalizedHasNoTriple | src/utils/text.ts:11-13 | the output never contains three consecutive newlines |
| Text.NormalizeKeepsTripleFree | src/utils/text.ts:11-13 | text without three consecutive newlines is returned unchanged |
| Text.NormalizeIdempotent | src/utils/text.ts:11-13 | normalising twice gives the same result as normalising once |
| Text.NormalizeCollapsesRuns | src/utils/text.ts:1-13 | the left-to-right regex scan equals the run-by-run definition: a run of three or more newlines becomes two, shorter runs are kept |
| Text.NormalizePreservesText | src/utils/text.ts:11-13 | only newlines are removed: deleting all newlines from input and output gives the same text |
| Text.LeadingNewlinesOfNormalized | src/utils/text.ts:11-13 | a leading run of k newlines comes out as two newlines when k >= 3, and unchanged otherwise |
| Text.NormalizeKeepsFirst | src/utils/text.ts:11-13 | a first character that is not a newline stays the first character |
| Text.NormalizeKeepsLast | src/utils/text.ts:11-13 | a last character that is not a newline stays the last character |
| Schemas.Trim | worker/schemas.ts:9 | the trimmed text is a contiguous slice of the input with no white space at either edge, and everything cut away is white space |
| Schemas.TrimKeepsTrimmed | worker/schemas.ts:9 | trimming text with no edge white space changes nothing |
| Schemas.ParseTaskType | worker/schemas.ts:3 | each of 'daily', 'progress' and 'one-time', and only that string, parses to its task type |
| Schemas.ValidateTitle | worker/schemas.ts:15 | a title is accepted exactly when present with at least one character, and is kept as given |
| Schemas.ValidateDescription | worker/schemas.ts:5-12 | a description is accepted exactly when absent or at most 1000 characters before trimming; absence is kept; a present value is trimmed, then its newline runs are collapsed |
| Schemas.AcceptedDescriptionWellFormed | worker/schemas.ts:5-12 | an accepted description has no edge white space, no triple newline and at most 1000 characters |
| Schemas.WellFormedDescriptionIsFixed | worker/schemas.ts:5-12 | validating an already well-formed description returns it unchanged, so saving a stored description again does not alter it |
| Schemas.ValidateCreate | worker/schemas.ts:14-22 | a create body is accepted exactly when its title, description and type are valid; the accepted data carries the checked fields and passes the optional fields through |
| Schemas.ValidateUpdate | worker/schemas.ts:24-43 | an accepted update payload never carries a current value, because the schema does not declare one |
| Schemas.UpdateIgnoresCurrentValue | worker/schemas.ts:24-43 | the validated update payload is the same whatever current value the body sent |
| Schemas.ValidateUpdateWith | worker/schemas.ts:24-43 | an update body is accepted exactly when it has an id, a non-empty title, a description of at most 1000 characters or none, one of the three types and a check-in flag; the accepted payload carries those fields, the description cleaned |
| Schemas.ValidateUpdateKeepingProgress | worker/schemas.ts:24-43 | the corrected update schema accepts exactly the same bodies and passes the current value through; otherwise its payload is the same |
| Schemas.CheckInEnabledOptionalOnCreateOnly | worker/schemas.ts:21-29 | `checkInEnabled` may be omitted when creating a task but is required when updating one |
| Schemas.ValidateCheckIn | worker/schemas.ts:45-48 | a check-in body is accepted exactly when `completed` is present; the value is optional |
| Schemas.ValidateAddProgressValue | worker/schemas.ts:50-52 | a progress value is accepted exactly when present and at least 0.01, hence positive |
| TaskQueries.RowToTask | worker/db/task-queries.ts:13-51 | the task takes id, title, description and timestamps from the row, and its variant from the row's type |
| TaskQueries.RowToTaskDefaults | worker/db/task-queries.ts:13-51 | missing columns take the defaults: check-in off, 30 days, target 100, value 0, unit "units"; a daily task's dates are the ones passed in |
| TaskQueries.RowToTaskInvertsTaskToRow | worker/db/task-queries.ts:13-51 | decoding the row that stores a task, with its dates, gives the task back |
| TaskQueries.FindRow | worker/db/task-queries.ts:82-92 | the result is the first row matching the id, and the owner when one is given; none means no row matches |
| TaskQueries.GetTaskById | worker/db/task-queries.ts:82-104 | a task is found exactly when some row matches the id (and the owner when given), and it carries that id |
| TaskQueries.GetOwnedTask | worker/db/task-queries.ts:82-104 | for a user, the task is found exactly when the user owns it; it is the decoded owned row, with the stored completion dates for a daily task and none otherwise |
| TaskQueries.GetTaskByIdIsOwnerScoped | worker/db/task-queries.ts:82-92 | a task that belongs to another user is never returned |
| TaskQueries.GetAllTasks | worker/db/task-queries.ts:56-77 | one task is listed per row the user owns |
| TaskQueries.GroupingIsDatesOf | worker/db/task-queries.ts:66-74 | grouping the completions by task gives each listed task its dates in table order |
| TaskQueries.GetAllTasksIsOwnerScoped | worker/db/task-queries.ts:56-77 | every listed task is the user's own and equals what fetching it by id returns; every row of the user is listed |
| TaskQueries.CreateTask | worker/db/task-queries.ts:109-178 | a fresh id appends one row and the repository stays valid; the returned task has the given fields, both timestamps equal to now, and the defaults (30 days, target 100, value 0, unit "units", not completed, check-in off); a taken id changes nothing |
| TaskQueries.CreateThenGet | worker/db/task-queries.ts:109-178 | the created task is exactly what fetching it by id for its owner returns |
| TaskQueries.UpdateTask | worker/db/task-queries.ts:184-257 | a task the user does not own is neither changed nor returned; otherwise the result is the re-fetched stored task |
| TaskQueries.UpdateTaskRows | worker/db/task-queries.ts:192-253 | the update rewrites only the owned row; ids and positions of all rows are kept |
| TaskQueries.UpdateTaskResult | worker/db/task-queries.ts:184-257 | the re-fetched task has the new title, description and check-in flag, and `updatedAt` equal to now; its stored type and `createdAt` are kept; for a non-daily task of the stored type, its fields are the ones sent |
| TaskQueries.UpdateTaskLedger | worker/db/task-queries.ts:209-218 | a daily update replaces the task's completion dates with the sent ones; other tasks' dates are unchanged |
| TaskQueries.UpdateDailyTaskReadsBack | worker/db/task-queries.ts:196-219 | after updating a daily task, re-reading it gives back exactly the sent target and dates |
| TaskQueries.UpdateTaskFrame | worker/db/task-queries.ts:184-257 | the repository stays valid, and every row of another task is unchanged |
| TaskQueries.DeleteTask | worker/db/task-queries.ts:263-267 | the result is true exactly when the user owned the task; only the matching row goes; nothing changes otherwise |
| TaskQueries.DeleteWhere | worker/db/task-queries.ts:265 | the rows left are exactly those the WHERE clause does not select, and there are never more of them |
| TaskQueries.DeleteWhereCount | worker/db/task-queries.ts:265-266 | the row count drops exactly when some row matched |
| TaskQueries.DeleteTaskEffect | worker/db/task-queries.ts:263-267 | deletion keeps the repository valid; a deleted task cannot be fetched and, by the cascade, has no completion dates left; other tasks keep theirs |
| TaskQueries.DeleteWhereDistinct | worker/db/task-queries.ts:265 | deleting rows keeps ids distinct |
| TaskQueries.DatePart | worker/db/task-queries.ts:293-295 | today's date is the part of the timestamp before the first 'T' |
| TaskQueries.RecordCheckIn | worker/db/task-queries.ts:281-291 | an unowned task gives none and no change; a check-in that is not completed returns the stored task unchanged |
| TaskQueries.RecordCheckInRows | worker/db/task-queries.ts:296-336 | a check-in on an owned task keeps every row's id, owner and type; the same row is still selected, and other tasks' rows are unchanged |
| TaskQueries.RecordCheckInReadsBack | worker/db/task-queries.ts:281-340 | the returned task is exactly what fetching it again returns, so the in-memory edits match the written rows |
| TaskQueries.RecordCheckInTransitions | worker/db/task-queries.ts:298-337 | a completed check-in adds today once to a daily task, adds a positive value to a progress task, or sets a one-time task's completion to today, each bumping `updatedAt`; otherwise nothing changes |
| TaskQueries.RecordCheckInFrame | worker/db/task-queries.ts:281-340 | the repository stays valid, and other tasks' rows and dates are unchanged |
| TaskQueries.DailyCheckInIdempotent | worker/db/task-queries.ts:300-309 | a second daily check-in with the same clock changes nothing |
| TaskRoutes.ListTasks | worker/task-routes.ts:35-46 | without a user the answer is 401; otherwise it is 200 with the user's tasks |
| TaskRoutes.GetTask | worker/task-routes.ts:49-65 | without a user the answer is 401; the answer is 404 exactly when the user does not own the id; otherwise 200 with the task |
| TaskRoutes.PostTask | worker/task-routes.ts:68-80 | an invalid body gives 400 before authentication, then no user gives 401; a valid create gives 201 with the task stored under the new id |
| TaskRoutes.RebuildTask | worker/task-routes.ts:98-134 | the payload's type picks the variant, only that variant's fields are kept, and missing fields take 30 days, no dates, target 100, value 0 and unit "units" |
| TaskRoutes.PutValidated | worker/task-routes.ts:83-141 | the checks run in order: 400 for an invalid body, 401 for no user, 400 for an id mismatch, then 404 exactly when the user does not own the task; otherwise 200 with the updated task |
| TaskRoutes.PutTaskAsWritten | worker/task-routes.ts:83-141 | with the schema as written, a valid body from the owner whose id matches the path answers 200 |
| TaskRoutes.PutTask | worker/task-routes.ts:83-141 | with the corrected schema the same bodies are rejected with 400 and nothing changes |
| TaskRoutes.DeleteRoute | worker/task-routes.ts:144-160 | without a user the answer is 401; otherwise 204 exactly when the user owned the task, and 404 exactly when not |
| TaskRoutes.CheckInRoute | worker/task-routes.ts:163-180 | a body without `completed` gives 400, no user gives 401; otherwise 404 exactly when the task is not the user's, and 200 with the checked-in task |
| TaskRoutes.EchoRebuildsTask | worker/task-routes.ts:98-134 | a stored task sent back as its own update body is rebuilt into that same task, with the corrected schema |
| TaskRoutes.EchoAsWrittenZeroesProgress | worker/task-routes.ts:117-124 | with the schema as written, a progress task sent back unchanged is rebuilt with current value 0 |
| TaskRoutes.PutEchoAsWrittenResetsProgress | worker/task-routes.ts:83-141 | saving a stored progress task unchanged through PUT answers 200 and stores current value 0 |
| TaskRoutes.PutEchoKeepsTask | worker/task-routes.ts:83-141 | with the corrected schema, saving a stored task unchanged answers 200 and stores the same task with only `updatedAt` bumped |
| TaskStore.FromApi | src/stores/task-store.ts:23 | tasks from the API become unarchived entries, in order |
| TaskStore.ActiveTasks | src/stores/task-store.ts:11 | the active view holds exactly the unarchived entries |
| TaskStore.ArchivedTasks | src/stores/task-store.ts:12 | the archived view holds exactly the archived entries |
| TaskStore.ViewsPartitionTasks | src/stores/task-store.ts:11-12 | the two views together hold every entry exactly once |
| TaskStore.ActiveKeepsOrder | src/stores/task-store.ts:11 | the active view keeps the store's order |
| TaskStore.ArchivedKeepsOrder | src/stores/task-store.ts:12 | the archived view keeps the store's order |
| TaskStore.GetTasksForCheckIn | src/stores/task-store.ts:14-16 | the check-in list holds exactly the active entries whose task is not completed, and is never longer than the list |
| TaskStore.CheckInListKeepsOrder | src/stores/task-store.ts:14-16 | the check-in list of a concatenation is the concatenation of the check-in lists, so entries keep their order and are not repeated |
| TaskStore.FindIndex | src/stores/task-store.ts:71 | the index is the first entry with the id; none means no entry has it |
| TaskStore.GetTaskById | src/stores/task-store.ts:106-108 | an entry is found exactly when one with the id exists, and it is the first store entry with that id |
| TaskStore.FetchTasks | src/stores/task-store.ts:18-29 | loading ends; success replaces the tasks and clears the error; failure keeps the tasks and sets an error |
| TaskStore.AddTask | src/stores/task-store.ts:31-44 | loading ends; success appends the created task and returns it; failure keeps the tasks, sets an error and returns none |
| TaskStore.RemoveTask | src/stores/task-store.ts:46-58 | loading ends; success drops every entry with the id and clears the error; failure keeps the tasks and sets an error |
| TaskStore.WithoutId | src/stores/task-store.ts:52 | the entries kept are exactly those with another id |
| TaskStore.WithoutIdKeepsOrder | src/stores/task-store.ts:52 | removing an id keeps the order of the other entries |
| TaskStore.WithoutAbsentId | src/stores/task-store.ts:52 | removing an id that no entry has changes nothing |
| TaskStore.ArchiveTask | src/stores/task-store.ts:87-104 | an unknown id changes nothing; otherwise only the first entry with the id is marked archived, loading is untouched, and a failed save only sets the error |
| TaskStore.ProcessCheckIn | src/stores/task-store.ts:60-85 | loading ends and the number of entries is kept; a failed check-in keeps the tasks and sets an error; a check-in on a task not in the store changes no entry |
| TaskStore.CheckInReplacesFirst | src/stores/task-store.ts:60-85 | a successful check-in replaces the first entry with the id by the returned task, archived exactly when the task is completed |
| TaskStore.ReplaceAtFirstIndex | src/stores/task-store.ts:71-73 | writing at the first index with the id equals replacing the first entry with that id |
| TaskStore.SuccessClearsError | src/stores/task-store.ts:18-104 | a successful fetch, add, remove or check-in clears the error; a successful archive leaves it as it was |
| Locales.ParseStoredLocale | src/locales/index.ts:16-19 | a stored value is accepted exactly when it is "en" or "ru", and it parses to that locale |
| Locales.DetectInitialLocale | src/locales/index.ts:27-44 | the locale is supported; it is Russian exactly when "ru" is stored, or when "en" is not stored and the browser language starts with "ru" in any letter case |
| Locales.StoredLocaleWins | src/locales/index.ts:27-34 | a stored locale is used whatever the browser language |
| Locales.InvalidStoredIgnored | src/locales/index.ts:27-44 | a missing or unknown stored value is ignored, and the browser language decides |
| Locales.DetectAfterSave | src/locales/index.ts:27-48 | saving the detected locale and detecting again gives the same locale |
| ConvertMigrations.NatToStringValue | scripts/convert-migrations.ts:60 | the decimal representation of a number is all digits and reads back as that number |
| ConvertMigrations.Pad4Value | scripts/convert-migrations.ts:60 | zero-padding to four digits keeps the digits' value |
| ConvertMigrations.LeadingDigitsOfPrefixed | scripts/convert-migrations.ts:27 | the leading number of a name is read from its whole digit prefix up to the first non-digit |
| ConvertMigrations.SqlFiles | scripts/convert-migrations.ts:21-23 | the existing migrations are exactly the listed files whose names end in `.sql` |
| ConvertMigrations.MaxOf | scripts/convert-migrations.ts:28 | `Math.max` of a non-empty list is an element of it and no element exceeds it |
| ConvertMigrations.NextNumber | scripts/convert-migrations.ts:25-29 | the next number is at least 1, exceeds every existing `.sql` file's number, and is 1 or one past some existing number; with no `.sql` files it is 1 |
| ConvertMigrations.Candidates | scripts/convert-migrations.ts:32-40 | a folder is considered exactly when its name starts with 14 digits and '_' and it is a directory listing `migration.sql` |
| ConvertMigrations.LexLeTotal | scripts/convert-migrations.ts:41 | any two names are ordered one way or the other |
| ConvertMigrations.LexLeTransitive | scripts/convert-migrations.ts:41 | the name order is transitive |
| ConvertMigrations.LexLeAntisymmetric | scripts/convert-migrations.ts:41 | names ordered both ways are equal, so the sorted order is unique |
| ConvertMigrations.SortByName | scripts/convert-migrations.ts:41 | sorting gives the same folders, ordered by name |
| ConvertMigrations.Dedup | scripts/convert-migrations.ts:46 | the set of tracker lines holds exactly the lines read, each once |
| ConvertMigrations.SplitJoin | scripts/convert-migrations.ts:44-76 | splitting the tracker text at newlines gives back the joined newline-free lines |
| ConvertMigrations.TrackedFolders | scripts/convert-migrations.ts:44-48 | the tracked folders are exactly the non-empty lines of the tracker file, without repeats; none without a tracker file |
| ConvertMigrations.MigrationName | scripts/convert-migrations.ts:59 | the migration name is the folder name after its 15-character timestamp prefix, character by character, with every '_' turned into '-' |
| ConvertMigrations.Pad4 | scripts/convert-migrations.ts:60 | the padded number has at least four characters, and exactly four when the number is below 10000 |
| ConvertMigrations.WranglerNameNumber | scripts/convert-migrations.ts:59-60 | a generated `NNNN_name.sql` ends in `.sql`, starts with a digit and reads back as its number |
| ConvertMigrations.StripMarkers | scripts/convert-migrations.ts:64 | the cleaned SQL is never longer than the input |
| ConvertMigrations.StripMarkersReplacesMarker | scripts/convert-migrations.ts:64 | the text before the first marker is kept, and that marker with one newline right after it becomes a single newline |
| ConvertMigrations.StripMarkersRemovesAll | scripts/convert-migrations.ts:64 | no `--> statement-breakpoint` marker is left in the cleaned SQL |
| ConvertMigrations.StripMarkersKeepsClean | scripts/convert-migrations.ts:64 | SQL without a marker is copied unchanged |
| ConvertMigrations.Untracked | scripts/convert-migrations.ts:52-53 | the folders kept are exactly those whose names the tracker does not list |
| ConvertMigrations.UntrackedSorted | scripts/convert-migrations.ts:50-53 | skipping tracked folders keeps the name order |
| ConvertMigrations.ToConvert | scripts/convert-migrations.ts:32-53 | the folders to convert are exactly the untracked candidates, in name order |
| ConvertMigrations.PlanConversion | scripts/convert-migrations.ts:50-80 | one file per converted folder; the tracker is written exactly when something was converted, as the old entries followed by the new ones, one per line |
| ConvertMigrations.PlanFileAt | scripts/convert-migrations.ts:50-71 | the k-th folder to convert is written as `NNNN_name.sql`, numbered next + k, with its SQL cleaned |
| ConvertMigrations.PlanConvertsUntrackedCandidates | scripts/convert-migrations.ts:32-71 | a folder is converted exactly when it is a candidate the tracker does not list |
| ConvertMigrations.PlanStripsMarkers | scripts/convert-migrations.ts:63-66 | no written file contains a statement-breakpoint marker |
| ConvertMigrations.PlanNumbersContinue | scripts/convert-migrations.ts:25-70 | the written files read back as consecutive numbers from the next number on, so their names are distinct and a later run numbers after them |
| ConvertMigrations.TrackerRecordsConverted | scripts/convert-migrations.ts:44-77 | reading the written tracker back lists exactly the old entries and the newly converted folders, so a second run skips them all |

## Left out

- I/O is left out: database access, HTTP, local storage, the file system and console output. Each becomes a parameter or a result value.
- The clock and `crypto.randomUUID()` become the `now` and `freshId` parameters.
- Concurrency between requests is left out. Each operation is one atomic step on a `Db` value.
- The store's intermediate `isLoading = true` state is not modelled, nor its awaits. Each store action maps the state before to the state after it settles.
- The ORM and SQL text are not modelled. A query is its effect on the two tables. Deleting a task removes its completions, as the `onDelete: 'cascade'` in `worker/db/schema.ts:41` declares.
- `worker/db/queries.ts` and `worker/index.ts` are not part of this model. `worker/task-routes.ts` imports its query functions from `./db/queries`, but calls them with the user id and in the shape of `worker/db/task-queries.ts`. The handlers are modelled against `worker/db/task-queries.ts`.
- Authentication middleware is not modelled. The signed-in user is an `Option<User>` parameter.
- The validator middleware runs before the handler. That is why an invalid body gets 400 even without a signed-in user.
- Valibot collects every failing issue, and the 400 body lists them all. The model keeps one issue kind per rejected body and drops the rest; issue message texts are not modelled.
- Bodies whose JSON fields have the wrong type are not modelled. A field is present with the right type, or absent.
- Numbers are `real`, so there is no NaN, no infinity and no floating-point rounding. `getTaskProgress` is modelled for positive targets only, since the source divides by the target.
- `targetDays` is modelled as `real`. The schema accepts any number.
- `maxLength(1000)` counts characters. JavaScript counts UTF-16 code units, so the two differ for characters outside the Basic Multilingual Plane.
- The JavaScript white-space set used by `trim` is listed explicitly. The name sort compares code points; JavaScript compares UTF-16 code units, so the orders differ only for characters outside the Basic Multilingual Plane.
- `toLowerCase` is modelled for the two letters that matter: "ru" matches in any letter case. Characters whose lower case is more than one code unit are not modelled.
- A ledger of progress values (`completedValues`, adding and removing entries, `globalProgress`) has no code in the modelled files and is left out. `completedValues` is validated and passed along only.
- `getTasksForCheckIn` does not filter on `checkInEnabled`; the model follows the code.
- `saveLocaleToStorage`, `getCurrentDate`, the locale message tables and the migration directory's creation are I/O and are left out.
- ConvertMigrations.NextNumber: requires every existing `.sql` file name to start with a digit, and so excludes every other name. `parseInt` reads such names differently: leading white space and a sign are accepted (`" 12"` gives 12, `"-3"` gives -3), and other names give NaN, which would number the new files `0NaN`. None of these cases is modelled.
- ConvertMigrations.Candidates: a folder whose listing names `migration.sql` is taken to hold the file. The source checks again with `existsSync`, which then always succeeds.
- ConvertMigrations.TrackerRecordsConverted: requires folder names and tracker lines without newlines. A name with a newline would be split when the tracker is read back.
- TaskStore.ProcessCheckIn: the frame guarantee, that only the entry with the id changes, is stated for a returned task carrying the requested id. The source writes whatever task the API returns at that index.
- TaskModel.GetTaskProgress: states bounds and the one-time values, not the exact percentage. The exact value is `Min(100, ratio * 100)` in real arithmetic.

## Findings

| source | as written | input that shows it | evidently intended | confidence | as-written member | corrected member |
|---|---|---|---|---|---|---|
| worker/schemas.ts:24-43 with worker/task-routes.ts:122 | The update schema declares no `currentValue`, and a valibot object drops undeclared keys. So `data.currentValue ?? 0` is always 0, and every PUT of a progress task stores current value 0. | A stored progress task with current value 95, sent back unchanged through PUT (the store's `archiveTask` does this). | A PUT should keep the progress value it is sent, as it keeps every other field. | not executed; medium (depends on valibot dropping unknown keys) | Schemas.ValidateUpdate, TaskRoutes.PutEchoAsWrittenResetsProgress | Schemas.ValidateUpdateKeepingProgress, TaskRoutes.PutTask, TaskRoutes.PutEchoKeepsTask |
