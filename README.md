# Goal tracker backend: report, store and migration, in Dafny

This project models three parts of the goal tracker's Express/MySQL backend.

- **Progress report.** The `/progress` handler of `routes/goal.ts` keeps the completed goals: `isCompleted` is true and `completedAt` is truthy. It then buckets them three ways: the 7 trailing days, the 30 trailing days, and the 12 months of the current year. Each bucket lists the ids of the goals completed inside its closed `[start, end]` window, in input order, and counts them. The handler gets its windows from local `Date` arithmetic. Here those windows are an input, a `Calendar`. `ValidCalendar` states what the arithmetic guarantees:
  - every window is non-empty;
  - each day ends one millisecond before the next day starts;
  - each month ends one millisecond before the next month starts;
  - today's window starts at `today`.
- **Goal store.** In `database/goalService.mysql.ts`, `GoalService` runs SQL on a MySQL `goals` table. Here the table is a `map` from the primary key to a `Row` (`GoalStore.Table`), and `GoalStore.GoalService` holds it as a field.
  - `GetAllGoals` and `GetGoalById` read the field and change nothing. Each mutating operation is a method that changes the field in place, and each is proved equal to a function that gives the statement's effect on the table (`CreateIn`, `UpdateIn`, `DeleteIn`, `ReorderIn`).
  - The contracts of those functions, and the lemmas about them, state the service's behaviour:
    - the not-found errors;
    - the `{...existing, ...updates}` merge (`Merge`);
    - the row each operation writes: `CreateIn` stores `InsertRow` and `UpdateIn` stores `UpdateRow`, whose contracts give the INSERT and UPDATE columns and the `||` defaults;
    - what fetching a row back after a create or an update gives (`CreateReadBack`, `UpdateReadBack`);
    - `reorderGoals` as `updateGoal(g.id, g)` for each goal in list order, stopping at the first failure (`ReorderOne`, `ReorderAppend`, `ReorderStopsAtFirstMissing`).
- **Migration.** `scripts/migrate.ts` does three things:
  - it cuts the schema file with `split(';')`;
  - it trims the pieces and drops the empty ones;
  - it sends the statements in order, and the first rejected statement ends the run with exit code 1.

Layout:

| File | Contents |
|---|---|
| `wrappers.dfy` | `Option` and `Result` |
| `types.dfy` | The `Goal` record of `types.ts` |
| `progress.dfy` | The report |
| `goal_service.dfy` | The store |
| `migrate.dfy` | The migration script |

## Model

| member | source | states |
|---|---|---|
| Progress.Completed | routes/goal.ts:142 | a goal is kept iff it is completed and its `completedAt` is present and non-zero; input order is kept |
| Progress.InWindow | routes/goal.ts:151 | a goal is kept iff `start <= completedAt <= end`, both ends inclusive; input order is kept |
| Progress.Counted | routes/goal.ts:142-151 | one-pass reference for a bucket: the qualifying goals completed inside the window, in input order |
| Progress.DayBucketFor | routes/goal.ts:146-156 | a day's bucket carries the day of the month, and its `progress` is the number of ids it lists |
| Progress.MonthBucketFor | routes/goal.ts:175-185 | a month's bucket carries the month number, and its `progress` is the number of ids it lists |
| Progress.Report | routes/goal.ts:136-191 | 7 weekly, 30 monthly and 12 yearly buckets; daily buckets are day buckets; yearly bucket `i` has `month == i + 1`, in 1..12; every bucket's `progress` is the length of its `goalIds` |
| Progress.FilterFusion | routes/goal.ts:142-151 | filtering the completed goals and then the window equals the one-pass reference filter |
| Progress.BucketsAreWindowCounts | routes/goal.ts:145-185 | weekly bucket `i` is day `6 - i` back; monthly bucket `i` is day `29 - i` back; yearly bucket `i` is month `i + 1`; each lists exactly the ids of the qualifying goals in its window, in input order, and counts them |
| Progress.CountedAppend | routes/goal.ts:151 | the goals of a bucket over a concatenated list are the first part's followed by the second's |
| Progress.ContiguousOrdered | routes/goal.ts:147-149 | in contiguous windows, a later window starts after an earlier one ends |
| Progress.ContiguousInSpan | routes/goal.ts:175-177 | each of a run of contiguous windows lies inside the run's span |
| Progress.DailyWindows | routes/goal.ts:146-148 | the weekly and monthly windows run oldest first and are contiguous; the last of each is today, starting at `today` |
| Progress.MonthlyEndsWithWeekly | routes/goal.ts:145-172 | the last 7 monthly buckets equal the 7 weekly buckets: same day, count and ids |
| Progress.CountSplit | routes/goal.ts:151 | splitting a window into two adjacent windows splits its count into their sum |
| Progress.SumOverContiguous | routes/goal.ts:147-151 | bucket counts over contiguous windows add up to the count over the windows' span |
| Progress.ReportTotals | routes/goal.ts:145-185 | summed weekly counts are the qualifying goals completed from the start of day today-6 to the end of today; the same over 30 days for the monthly counts and over the year for the yearly counts |
| Progress.WeeklyTotal | routes/goal.ts:145-157 | the weekly part of `ReportTotals` |
| Progress.MonthlyTotal | routes/goal.ts:160-172 | the monthly part of `ReportTotals` |
| Progress.DailyTotal | routes/goal.ts:147-151 | `SumOverContiguous` for buckets built from days |
| Progress.SameIdSameGoal | database/goalService.mysql.ts:18-19 | in a listing with unique ids, two goals with the same id are the same goal |
| Progress.IdNotListed | routes/goal.ts:151-156 | with unique ids, a goal that a bucket's filter rejects is not in its `goalIds` |
| Progress.NotQualifiedNeverCounted | routes/goal.ts:142 | a goal that is not completed, or whose `completedAt` is absent or 0, is in no weekly, monthly or yearly bucket |
| Progress.OutsideYearNeverCounted | routes/goal.ts:176-179 | a goal completed before the first month starts or after the last month ends is in no yearly bucket |
| Progress.AtMostOneOf | routes/goal.ts:147-151 | buckets over contiguous windows never share an id, when ids are unique |
| Progress.AtMostOneDailyBucket | routes/goal.ts:145-172 | with unique ids, a goal is in at most one weekly bucket and at most one monthly bucket |
| Progress.DisjointWindows | routes/goal.ts:151 | two windows that do not overlap never list the same id, when ids are unique |
| Progress.WeeklyBucket | routes/goal.ts:145-157 | weekly bucket `j` is day `6 - j`'s count and ids over the input |
| Progress.SingleGoalWeek | routes/goal.ts:145-157 | one qualifying goal completed anywhere in day `i`'s window, its first and last millisecond included, is counted in weekly bucket `i` and in no other |
| Progress.SingleGoalDay | routes/goal.ts:147-151 | that single goal lies in day `6 - j`'s window only when `j == i` |
| GoalStore.TextOrNone | database/goalService.mysql.ts:54 | `s \|\| null`: the value is kept iff it is present and not empty |
| GoalStore.NumberOrNone | database/goalService.mysql.ts:59 | `n \|\| null`: the value is kept iff it is present and not 0 |
| GoalStore.FlagOrFalse | database/goalService.mysql.ts:62 | `b \|\| false` is true iff `b` is present and true |
| GoalStore.MapRowToGoal | database/goalService.mysql.ts:173-188 | id, title, `parent_id`, progress, `is_completed`, `created_at` and `scheduled_days` are copied; `expanded` becomes a boolean that is always present; description, completion time, one-time date and reminder are kept iff truthy, unchanged, and absent otherwise |
| GoalStore.InsertRow | database/goalService.mysql.ts:45-65 | the INSERT row: the generated id; title, progress, completion flag and scheduled days as given; `created_at` defaults to `now` when 0; description, parent, completion time, one-time date and reminder stored iff truthy; `expanded` true iff given as true; never an empty text or a zero timestamp |
| GoalStore.Created | database/goalService.mysql.ts:67-71 | the returned record has the generated id and, without its id, is the input with only `createdAt` defaulted; its `createdAt` is non-zero unless `now` is 0 |
| GoalStore.UpdateRow | database/goalService.mysql.ts:87-106 | the UPDATE row: `id` and `created_at` as stored; every other column from the merged goal, optional ones stored iff truthy and `expanded` true iff true; never an empty text or a zero timestamp |
| GoalStore.Merge | database/goalService.mysql.ts:85 | the merge law: each key given in the updates takes the update's value, and each key left out keeps the existing value |
| GoalStore.AsPatch | database/goalService.mysql.ts:136 | merging a goal given as the updates is `{...existing, ...goal}`: its required fields and the optional fields it has win, the others keep the existing values; a goal merged into itself is unchanged |
| GoalStore.Find | database/goalService.mysql.ts:26-38 | present iff a row has the id, and then it is that row mapped, carrying the id |
| GoalStore.CreateIn | database/goalService.mysql.ts:40-76 | a taken id gives the duplicate-key error and no change; otherwise exactly one row is added, the INSERT row under the fresh id; other rows are untouched; the input is returned with the id and the defaulted `createdAt` |
| GoalStore.UpdateIn | database/goalService.mysql.ts:78-113 | a missing id gives "Goal not found" and no change; otherwise the result is existing merged with updates and the row under `id` becomes the UPDATE row of that result; keys, every row's `id` and `created_at`, and all other rows are unchanged |
| GoalStore.DeleteIn | database/goalService.mysql.ts:115-129 | a missing id gives "Goal not found" and no change; otherwise exactly that row is removed |
| GoalStore.ReorderIn | database/goalService.mysql.ts:131-142 | keys and every row's `id` and `created_at` are kept; rows no goal names are untouched; within the model, the only failure is "Goal not found" |
| GoalStore.MergeIdentityAndIdempotence | database/goalService.mysql.ts:85 | merging no keys changes nothing; merging the same updates twice is merging them once |
| GoalStore.CreateReadBack | database/goalService.mysql.ts:40-76 | after a create, fetching the new id gives the returned record with falsy optional values dropped and `expanded` made a boolean |
| GoalStore.UpdateReadBack | database/goalService.mysql.ts:78-113 | after an update, fetching the id gives the returned record, normalised, but with the stored `id` and `created_at` |
| GoalStore.ResaveUnchanged | database/goalService.mysql.ts:78-113 | updating a row with the goal exactly as fetched returns that goal and leaves the table unchanged |
| GoalStore.UpdateEchoesUnstoredFields | database/goalService.mysql.ts:85-108 | an update that carries a different `createdAt` returns it, while the stored row keeps the old one |
| GoalStore.ReorderAllPresent | database/goalService.mysql.ts:135-137 | when every goal names a stored row, reordering succeeds |
| GoalStore.ReorderStopsAtFirstMissing | database/goalService.mysql.ts:135-141 | at the first goal whose id names no row, reordering fails with "Goal not found" and keeps exactly the updates of the goals before it |
| GoalStore.ReorderOne | database/goalService.mysql.ts:135-137 | reordering one goal is `updateGoal(goal.id, goal)`: same table, and success iff the id is stored |
| GoalStore.ReorderAppend | database/goalService.mysql.ts:135-141 | reordering `a + b` is reordering `a`, then, unless that failed, `b` on the table `a` left |
| GoalStore.EarliestExists | database/goalService.mysql.ts:18 | a non-empty set of rows has one with the earliest `created_at` |
| GoalStore.ListingStep | database/goalService.mysql.ts:18-19 | appending an earliest remaining row keeps the listing invariant |
| GoalStore.ListingStepKeys | database/goalService.mysql.ts:19 | after the append, every row outside the remaining keys is listed once, mapped |
| GoalStore.ListingStepOrder | database/goalService.mysql.ts:18 | after the append, ids stay unique and the order stays ascending by `created_at` |
| GoalStore.AppendLatest | database/goalService.mysql.ts:18 | a goal with a new id and no earlier creation time extends a listing ordered by creation |
| GoalStore.GoalService.constructor | database/goalService.mysql.ts:8-14 | the service starts over the rows already stored |
| GoalStore.GoalService.GetAllGoals | database/goalService.mysql.ts:16-24 | every row is listed exactly once, mapped, in ascending `created_at` order |
| GoalStore.GoalService.GetGoalById | database/goalService.mysql.ts:26-38 | the result is `Find` on the table: the mapped row under the id, or null iff there is none |
| GoalStore.GoalService.CreateGoal | database/goalService.mysql.ts:40-76 | the result and the new table are those of `CreateIn` |
| GoalStore.GoalService.UpdateGoal | database/goalService.mysql.ts:78-113 | the result and the new table are those of `UpdateIn` |
| GoalStore.GoalService.DeleteGoal | database/goalService.mysql.ts:115-129 | the result and the new table are those of `DeleteIn` |
| GoalStore.GoalService.ReorderGoals | database/goalService.mysql.ts:131-142 | the result and the new table are those of `ReorderIn` |
| Migrate.Split | scripts/migrate.ts:15 | `split(';')`: at least one piece, and no piece contains `;` |
| Migrate.Kept | scripts/migrate.ts:16-17 | one piece gives at most one statement: its trim, exactly when that is not empty |
| Migrate.NonBlank | scripts/migrate.ts:16-17 | no more results than pieces, each non-empty and with no whitespace at either end |
| Migrate.Statements | scripts/migrate.ts:14-17 | every statement is non-empty, has no `;`, and has no whitespace at either end |
| Migrate.SkipLeading | scripts/migrate.ts:16 | the first index at or after `i` that is not whitespace, or the end: everything skipped is whitespace |
| Migrate.SkipTrailing | scripts/migrate.ts:16 | the index just after the last character before `j`, and not before `lo`, that is not whitespace, or `lo`: everything skipped is whitespace |
| Migrate.Trim | scripts/migrate.ts:16 | `trim` is no longer than its input and has no whitespace at either end |
| Migrate.TrimSlice | scripts/migrate.ts:16 | `trim` gives a slice of the input with only whitespace outside it |
| Migrate.TrimTrimmed | scripts/migrate.ts:16 | a text with no whitespace at its ends is its own trim |
| Migrate.TrimIdempotent | scripts/migrate.ts:16 | trimming twice is trimming once |
| Migrate.SplitJoin | scripts/migrate.ts:15 | joining the pieces with `;` gives back the input |
| Migrate.SplitAppend | scripts/migrate.ts:15 | a `;` between two texts splits them into the first's pieces followed by the second's |
| Migrate.SplitNoSeparator | scripts/migrate.ts:15 | a text with no `;` is a single piece |
| Migrate.NonBlankAppend | scripts/migrate.ts:16-17 | trim-and-filter keeps concatenation: its result over two lists is the first's followed by the second's |
| Migrate.TrimmedPiece | scripts/migrate.ts:15-17 | a `;`-free piece whose trim is not empty trims to a statement |
| Migrate.NonBlankShape | scripts/migrate.ts:16-17 | every kept piece is a statement, and there are no more statements than pieces |
| Migrate.StatementsAppend | scripts/migrate.ts:14-17 | statements follow file order: for `a;b`, those of `a` then those of `b` |
| Migrate.StatementsWithoutSeparator | scripts/migrate.ts:14-17 | a text with no `;` gives no statement if it is blank, and otherwise exactly its trim |
| Migrate.SingleStatement | scripts/migrate.ts:14-17 | a statement on its own gives back exactly itself |
| Migrate.JoinStatements | scripts/migrate.ts:14-17 | statements joined with `;` split back into exactly those statements |
| Migrate.EmptyFile | scripts/migrate.ts:14-17 | an empty file has no statements |
| Migrate.JoinStatementsStep | scripts/migrate.ts:14-17 | a statement followed by `;` and more text gives that statement, then the statements of the rest |
| Migrate.Execute | scripts/migrate.ts:19-22 | statements are sent in order and form a prefix of the list; the run succeeds iff all were sent and accepted; otherwise it stops at the first one rejected |
| Migrate.Migrate | scripts/migrate.ts:5-31 | the statements sent are a prefix of the file's statements, in order; exit code 0 iff all were sent and accepted; every statement but the last sent was accepted; on exit code 1 the last one sent was rejected; only well-formed statements are sent |

## Left out

- Local-time `Date` arithmetic (`setDate`, `setHours`, `new Date(y, m, d)`, daylight saving time) is not computed. The calendar windows, the day of the month and `today` are inputs. `ValidCalendar` states what the arithmetic is relied on to give.
- The clock (`Date.now()`) and the uuid generator are parameters. In the migration, the MySQL server's replies are a parameter too: its acceptance of a statement is a function of the statements sent before it. In the goal store, the server's replies are computed from the in-memory table.
- CreateIn, UpdateIn, DeleteIn, ReorderIn, Find: server and connection failures of the store's statements are not modelled. Examples are a lost connection, a lock timeout, or the `parent_id` foreign key rejecting an INSERT or UPDATE. In the source, every `GoalService` method rethrows such an error (database/goalService.mysql.ts:22, 36, 74, 111, 127, 140). In `reorderGoals`, a failure part-way through leaves the earlier updates applied. The model fails only with the duplicate-key and "Goal not found" errors.
- A generated uuid that is already a key is modelled as the driver's duplicate-key error (`DuplicateId`). The source never checks for this.
- The `progress || 0` and `isCompleted || false` defaults are the identity on typed input. An untyped JSON body with a missing or `NaN` `progress` is not modelled, and neither is any other non-number or non-boolean value.
- An `id` key inside a create body is not modelled: the input is typed as a goal without its id. In the source, such a key in `...goal` would override the generated id in the returned record.
- `null` and an absent key are the same `None`, except in an update's keys (`Patch`), where `Some(None)` is a key given as null.
- `scheduled_days` is stored as the parsed list. The `JSON.stringify`/`JSON.parse` round trip and the driver returning JSON columns already parsed are not modelled.
- These MySQL behaviours are not modelled:
  - column types and widths;
  - the foreign key and its `ON DELETE CASCADE`;
  - case-insensitive collation of keys;
  - the automatic `created_at_timestamp`/`updated_at` columns.
- The database's tie order among rows with equal `created_at` is not fixed: `GoalService.GetAllGoals` picks any earliest remaining row.
- These parts of the system are not modelled:
  - the shared connection and its asynchronous initialisation;
  - concurrency between requests;
  - error logging;
  - `getProgressData` and `saveProgressSnapshot`, which pass SQL through;
  - the Express handlers and their status codes;
  - the seed data;
  - `database/connection.ts`, `config/index.ts`, `utils/logger.ts`, `utils/metrics.ts`, `index.ts` and `index.original.ts`.
- In the migration, these are left out:
  - reading the schema file;
  - the console output, including the 50-character preview;
  - closing the connection;
  - `process.exit`, which becomes an exit-code result.
- CreateIn: the table's `CHECK (progress >= 0 AND progress <= 100)` (database/connection.ts:99) is not modelled, so a create with a progress outside 0..100 succeeds in the model where MySQL would reject the INSERT.
- UpdateIn: the same progress CHECK is not modelled, so an update that merges to a progress outside 0..100 succeeds in the model where MySQL would reject the UPDATE.
- ReorderIn: a goal that carries an optional field as JSON `null` clears that column in the source, because `{...existing, ...goal}` copies the null. `AsPatch` reads a `None` field as a key left out, so the model keeps the stored value instead. Goals as `getGoalById` returns them never carry null, so this arises only for client-built lists.
- Migrate: a failure to open the connection (scripts/migrate.ts:8) exits with code 1 before any statement is sent. The model starts from an open connection.
- `trim` removes the ECMAScript WhiteSpace and LineTerminator characters. Strings are sequences of characters, not UTF-16 code units.
