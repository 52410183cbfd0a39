# Todo rank progression — a Dafny model

This project models the rank-progression core of a todo service. Each user has a counter of
completed todos. The counter places the user in one of six tiers: iron, silver, gold,
diamond, platinum and todo master. When a completion moves the counter onto the first count
of a tier, the service rewrites the user's stored tier and appends an event to an upgrade log.

The model covers:

- **The tier table** (`shared/constants/ranks.js`):
  - the six ranges;
  - `calculateRank`;
  - `checkRankUpgrade`;
  - `getRankProgress`, including its `Math.round` percentage.

  Modules `Ranks`, with `Common` for the shared wrappers.
- **`String.prototype.trim` and `parseInt`**, as far as the handlers use them. Module `Text`.
- **The three tables and their per-row rules.** The tables are `todos`, the rank columns of
  `users`, and `rank_upgrades`. The rules cover:
  - how an edit rewrites a todo;
  - which counter write a flag change calls for;
  - the floored decrement;
  - the invariants the handlers keep.

  Module `Tables`.
- **The rank service** (`src/services/rankService.js`): the effect of `updateUserRank` on
  the users table and the log, and the two read projections. Module `RankService`.
- **The rank controller** (`src/controllers/rankController.js`):
  - rank information with progress;
  - the upgrade history;
  - the leaderboard's `limit` parsing, `FIELD()` ordering and cut.

  Module `RankQueries`. It uses a generic insertion sort from module `Sorting`.
- **The todo controller** (`src/controllers/todoController.js`): a `Database` class whose
  fields are the three tables. Its handlers are methods that change the tables in place
  (module `Store`).
  - `updateTodo` and `deleteTodo` each run as a transaction. A storage failure is a
    parameter naming the statement that fails (`StorageFault`), and a failure rolls back
    every earlier write of the handler.
  - `createTodo` runs no transaction (lines 51-61): its single insert is kept even when
    the read-back that follows it fails.
  - The class invariant `Valid()` states four things:
    - every `completed_at` agrees with its flag;
    - every counter equals the number of completed todos its user owns;
    - every logged event sits on a tier boundary and names that tier;
    - event ids are distinct.

    The constructor establishes it from tables that satisfy it (a fresh database with
    every counter at 0 does, by `EmptyTablesValid`), and every write handler preserves
    it. For `updateTodo` this holds with the corrected comparison of line 190, which
    the model uses; the code as written lets counters drift (see Findings).

Clocks, random ids and the database are parameters of the model:

- `now` stands for a creation timestamp.
- A todo id and an upgrade id are supplied by the caller.
- Fault parameters say which storage statement fails.

Timestamps that the database sets itself (`completed_at`, `rank_upgraded_at`) are modelled
as set or unset.

Where the code does something the tier ladder does not suggest, the model follows the code:

- **The tier is not kept equal to the tier of the counter.**
  - Un-completing a todo and deleting a completed todo decrement the counter but never
    touch the tier. `RankQueries.GetRankInfoStaleTier` shows a reply that contradicts
    itself.
  - The next upward crossing rewrites the tier to the tier of the counter, which can be
    lower than the stored one. So the stored tier is not a high-water mark either
    (`RankService.RankUpdateCanLowerStoredTier`).
- **A rank write can commit without its event.** `updateUserRank` catches every error and
  the caller never looks at a failure. A tier rewrite followed by a failed event insert
  therefore commits without an event, and the todo update still succeeds
  (`RankService.RankUpdateOf`, `Store.Database.UpdateTodo`).
- **The counter is not a lifetime count.** It goes down on un-completion and on deletion
  of a completed todo.
- **Re-crossing a boundary logs a second event.** An event is appended on every crossing
  onto a boundary count, so re-crossing a boundary after an un-completion logs a second
  event for the same boundary.
- **The leaderboard limit falls back to 10 only for NaN and 0.** A negative limit is kept,
  and makes the `LIMIT` clause invalid, which is answered with 500.
- **A storage failure of the rank lookup is answered with 404**, not 500.

## Model

| member | source | states |
|---|---|---|
| Ranks.ParseRank | shared/constants/ranks.js:4-11 | a string parses exactly when it is one of the six rank names, and then to the rank of that name |
| Ranks.ParseRankName | shared/constants/ranks.js:4-11 | every rank's name parses back to the rank |
| Ranks.Thresholds | shared/constants/ranks.js:13-20 | every tier starts at a non-negative count; only todo master has no upper end, and every other tier ends no lower than it starts |
| Ranks.Index | shared/constants/ranks.js:22-29 | `RANK_ORDER` holds each rank at the position `Index` gives, so `RANK_ORDER.indexOf` finds every rank |
| Ranks.TiersContiguous | shared/constants/ranks.js:13-20 | iron starts at 0, each tier starts one past the previous tier's end, only the last tier is unbounded |
| Ranks.InRangeUnique | shared/constants/ranks.js:13-20 | no count lies in two tiers' ranges |
| Ranks.TierCovers | shared/constants/ranks.js:13-20 | a count lies in some tier's range exactly when it is non-negative |
| Ranks.ExactlyOneTier | shared/constants/ranks.js:13-20 | every non-negative count lies in exactly one tier |
| Ranks.FirstMatch | shared/constants/ranks.js:37-42 | the loop returns a tier of the order whose range holds the count, no earlier tier of the order holds it, and it returns nothing when none does |
| Ranks.CalculateRank | shared/constants/ranks.js:36-44 | a non-negative count gets the tier whose range holds it; a negative count falls through to iron |
| Ranks.CalculateRankTable | shared/constants/ranks.js:36-44 | the tier of each count range 0-9, 10-24, 25-49, 50-99, 100-199, 200 and up, and iron for negatives |
| Ranks.CalculateRankIsTier | shared/constants/ranks.js:36-44 | for a non-negative count, the computed tier is the only tier whose range holds it |
| Ranks.CalculateRankMonotone | shared/constants/ranks.js:36-44 | a larger count never gets a lower tier |
| Ranks.CheckRankUpgrade | shared/constants/ranks.js:52-65 | a report exactly when the two counts' tiers differ, naming both tiers with `upgraded` set; for a rising count it climbs the ladder, for a falling count it descends |
| Ranks.CheckRankUpgradeSameCount | shared/constants/ranks.js:52-65 | equal counts never report |
| Ranks.CheckRankUpgradeExamples | shared/constants/ranks.js:52-65 | 9 to 10 reports iron to silver; 199 to 200 reports platinum to todo master |
| Ranks.CheckRankUpgradeStep | shared/constants/ranks.js:52-65 | one more task reports exactly at 10, 25, 50, 100 and 200 (the first counts of tiers), and then climbs exactly one tier |
| Ranks.RoundedPercent | shared/constants/ranks.js:91-98 | a full tier gives 100; below it, the integer nearest to 100·done/width, halves rounded up |
| Ranks.RoundedPercentNearest | shared/constants/ranks.js:91-98 | for a count inside a tier the percentage lies in 0..100, and in 0..99 for every tier narrower than 200 |
| Ranks.GetRankProgress | shared/constants/ranks.js:72-101 | the tier of the count; `isMaxRank` exactly when there is no next tier; otherwise the next tier is the one after it in `RANK_ORDER` and the tasks to go reach that tier's first count |
| Ranks.GetRankProgressAtTop | shared/constants/ranks.js:76-85 | from 200 on: todo master, no next tier, 100 percent, 0 to go, max rank |
| Ranks.GetRankProgressBelowTop | shared/constants/ranks.js:87-101 | below 200: the next tier of `RANK_ORDER`, at least one task to go, and a rounded share of the tier in 0..99 |
| Ranks.GetRankProgressNegative | shared/constants/ranks.js:72-101 | a negative counter is shown in iron with a negative percentage and more than 10 to go |
| Ranks.GetRankProgressMax | shared/constants/ranks.js:72-101 | `isMaxRank` holds and `nextRank` is null exactly from 200 on |
| Text.LeadingSpace | src/controllers/todoController.js:42 | the count of leading whitespace characters: all of them whitespace, the next one not |
| Text.TrailingSpace | src/controllers/todoController.js:42 | the count of trailing whitespace characters: all of them whitespace, the one before not |
| Text.Trim | src/controllers/todoController.js:55 | `trim` never lengthens its input and leaves no whitespace at either end |
| Text.TrimSlice | src/controllers/todoController.js:55 | `trim` returns a slice of its input, and all it cuts is whitespace |
| Text.TrimEmptyIffBlank | src/controllers/todoController.js:42 | a trimmed task is empty exactly when the task is whitespace only |
| Text.DigitPrefix | src/controllers/rankController.js:69 | the longest prefix of digits of the radix |
| Text.Decimal | src/controllers/rankController.js:69 | the decimal spelling of a number is a non-empty string of digits |
| Text.DecimalValue | src/controllers/rankController.js:69 | the decimal spelling of a number spells that number |
| Text.ParseInt | src/controllers/rankController.js:69 | `parseInt` with no radix: whitespace, an optional sign, a `0x` prefix, the longest run of digits, NaN when that run is empty; the lemmas below state what it returns |
| Text.ParseIntPrefixes | src/controllers/rankController.js:69 | `parseInt` skips no whitespace, takes no sign and no radix prefix from a plain numeral, and takes the minus of "-" followed by one |
| Text.ParseSignedNumeral | src/controllers/rankController.js:69 | a numeral after its sign parses to its value with that sign |
| Text.ParseIntDigits | src/controllers/rankController.js:69 | a string of decimal digits parses to the number it spells |
| Text.ParseIntNegatedDigits | src/controllers/rankController.js:69 | a minus followed by decimal digits parses to the negated number |
| Text.ParseIntDecimal | src/controllers/rankController.js:69 | `parseInt` reads back the decimal spelling of every natural number and of its negation |
| Text.ParseIntNoDigits | src/controllers/rankController.js:69 | a string without any decimal digit parses to NaN |
| Tables.EditTodo | src/controllers/todoController.js:151-186 | an edit changes the text only when a task is given (to the trimmed task), the flag only when a flag is given, never the owner or creation time; `completed_at` is set on a false-to-true change, cleared on a true-to-false change, kept otherwise |
| Tables.EditTodoKeepsStamp | src/controllers/todoController.js:164-169 | a row whose `completed_at` agrees with its flag still agrees after any edit |
| Tables.CounterStepOf | src/controllers/todoController.js:188-207 | with both flags booleans, the counter goes up exactly for a true flag on an open row and down exactly for a false flag on a completed row |
| Tables.CounterStepFollowsFlag | src/controllers/todoController.js:188-207 | with the flags compared as booleans, the counter goes up exactly when the edit turns the flag on and down exactly when it turns it off |
| Tables.CounterStepAsWritten | src/controllers/todoController.js:190 | as written, with the stored flag a driver number, every supplied flag moves the counter in its own direction; no flag, no move |
| Tables.CounterStepAsWrittenMovesOnEveryFlag | src/controllers/todoController.js:190 | as written, a boolean compared with the driver's 0/1 is always different, so every supplied flag moves the counter |
| Tables.Incremented | src/controllers/todoController.js:193-197 | the increment adds one to the named user's counter and changes no other column or row |
| Tables.Decremented | src/controllers/todoController.js:200-205 | the decrement takes one from the named user's counter but not below 0, and changes no other column or row |
| Tables.DecrementedFloor | src/controllers/todoController.js:203 | `GREATEST(0, n - 1)` keeps a counter non-negative and leaves 0 at 0 |
| Tables.CounterRoundTrip | src/controllers/todoController.js:193-205 | un-completing then completing, or completing then un-completing, restores the counter |
| Tables.CrossingCounts | src/services/rankService.js:38-55 | every logged event sits at 10, 25, 50, 100 or 200 and names the tier that count starts |
| Tables.CompletedOfUpdate | src/controllers/todoController.js:183-207 | rewriting a row's flag moves its owner's completed set by one in the direction of the change and no other user's set |
| Tables.CompletedOfInsert | src/controllers/todoController.js:53-56 | inserting an open todo changes nobody's completed set |
| Tables.CompletedOfRemove | src/controllers/todoController.js:284-287 | deleting a completed todo takes one from its owner's completed set and nothing from anyone else's |
| RankService.RankUpdateOf | src/services/rankService.js:11-81 | `updateUserRank` never changes a counter or another user's row, and appends at most one event, none unless it reports an upgrade |
| RankService.RankUpdateMissingUser | src/services/rankService.js:25-28 | without the user's row the result is "User not found" and nothing is written |
| RankService.RankUpdateNoCrossing | src/services/rankService.js:35-74 | without a crossing nothing is written and the tier of the counter is reported, even when the stored tier is stale |
| RankService.RankUpdateCrossing | src/services/rankService.js:43-65 | on a boundary count the tier is rewritten to the tier of the count and exactly one event (stored tier to new tier, with the count) is appended |
| RankService.RankUpdateKeepsLogValid | src/services/rankService.js:43-55 | the log keeps holding only boundary crossings with distinct ids |
| RankService.RankUpdateCanLowerStoredTier | src/services/rankService.js:31-55 | a user stored as gold at count 10 is rewritten to silver with a gold-to-silver event |
| RankService.GetUserRankInfo | src/services/rankService.js:88-123 | fails exactly for a storage error or a missing user; otherwise reports the stored tier and raw counter, with the stored tier's display name and colour, or iron's for an unknown tier string |
| RankService.DisplayNameOr | src/services/rankService.js:144-145 | a rank name is shown by its display name, any other string as it is |
| RankService.EventsOf | src/services/rankService.js:135-138 | exactly the user's events are selected: each listed event is the user's and comes from the log, and each of the user's events in the log is listed |
| RankService.EventsOfAppend | src/services/rankService.js:135-138 | an appended event ends its user's selection and leaves other users' selections alone, so the selection keeps log order |
| RankService.History | src/services/rankService.js:135-148 | the history has at most one entry per logged event |
| RankService.HistoryNewestFirst | src/services/rankService.js:135-148 | the history lists exactly the user's events, newest first |
| RankService.HistoryAppend | src/services/rankService.js:135-148 | a newly logged event heads its user's history and leaves other users' histories alone |
| RankService.GetRankHistory | src/services/rankService.js:130-158 | fails exactly on a storage error; otherwise lists the user's events newest first, with display names |
| RankQueries.GetRankInfo | src/controllers/rankController.js:7-38 | 404 exactly for a storage error or a missing user, never 500; a success passes `getUserRankInfo`'s rank object through whole and adds the progress of the raw counter |
| RankQueries.GetRankInfoStaleTier | src/controllers/rankController.js:11-29 | a user stored as silver at count 9 is shown as silver, next tier silver, 1 to go, 90 percent |
| RankQueries.GetRankUpgradeHistory | src/controllers/rankController.js:41-63 | success exactly when storage does not fail, 500 otherwise; a success is the history, unchanged |
| RankQueries.LeaderboardLimit | src/controllers/rankController.js:69 | the limit is never 0: 10 when the parameter is absent or parses to NaN or 0, and any non-zero parsed number kept as it is |
| RankQueries.LeaderboardLimitSpec | src/controllers/rankController.js:69 | a decimal numeral gives the number it spells (0 falls back to 10), a negated numeral its negation, and text without digits 10 |
| RankQueries.FieldPosition | src/controllers/rankController.js:81 | a tier's `FIELD` position is 6 minus its place on the ladder, so a higher tier sorts first; a string naming no tier gets 0 |
| RankQueries.Precedes | src/controllers/rankController.js:80-82 | `a` may be listed before `b`: a smaller `FIELD` position, or the same one and a counter at least as large; PrecedesIsPreorder makes it a total preorder |
| RankQueries.PrecedesIsPreorder | src/controllers/rankController.js:80-82 | the leaderboard order is total and transitive |
| RankQueries.Leaderboard | src/controllers/rankController.js:73-85 | success exactly without a storage error and with a non-negative limit, 500 otherwise; a success holds min(limit, users) rows in tier-then-count order, drawn from the table, each listed row ahead of every row left out |
| RankQueries.TopOfSorted | src/controllers/rankController.js:83 | the first rows of a sorted list come from it and precede every row after them |
| Store.NoticeOf | src/controllers/todoController.js:223-230 | the reply carries a rank upgrade exactly when `updateUserRank` reported one |
| Store.NewerFirstIsPreorder | src/controllers/todoController.js:14 | `created_at DESC` is total and transitive |
| Store.EditKeepsCounters | src/controllers/todoController.js:183-207 | an owner's edit with the counter write it calls for keeps every counter equal to the user's completed todos |
| Store.DeleteKeepsCounters | src/controllers/todoController.js:281-295 | deleting an owned todo with the decrement it calls for keeps every counter equal to the user's completed todos |
| Store.RankUpdateKeepsCounters | src/controllers/todoController.js:199 | the rank update keeps the counters equal to the completed todos |
| Store.EditKeepsInvariant | src/controllers/todoController.js:183-214 | a committed edit keeps the store invariant whatever `updateUserRank` does |
| Store.CompletionAtBoundaryUpgrades | src/controllers/todoController.js:188-230 | completing an open todo adds one to the owner's counter; landing on a boundary logs exactly one event and reports the upgrade, otherwise no event and no notice |
| Store.ScanTodos | src/controllers/todoController.js:13-16 | the scan returns each of the user's todos once, as stored |
| Store.Database.GetStats | src/controllers/todoController.js:81-112 | success exactly when storage does not fail, 500 otherwise; total is the number of the user's todos, completed plus pending; the sums are NULL exactly when there are none |
| Store.Database.UpdateUserRank | src/services/rankService.js:11-81 | the tables and the result are those of `RankUpdateOf`; todos are untouched |
| Store.Database.RecordUpgrade | src/services/rankService.js:43-65 | a failed tier write changes nothing; otherwise the tier is rewritten to the tier of the count, and the event is appended unless its insert fails or its id is taken |
| Store.Database.CreateTodo | src/controllers/todoController.js:36-78 | 400 for a missing or blank task before any write; a failed connect or insert (a taken id included) writes nothing; otherwise the trimmed, open row is inserted, and it stays even when the read-back fails; the invariant is kept |
| Store.Database.UpdateTodo | src/controllers/todoController.js:115-245 | a failing statement gives 500 with nothing changed; otherwise 404, then 403, then 400 with nothing changed; success applies the edit, the counter step and `updateUserRank`; the invariant is kept |
| Store.Database.WriteEdit | src/controllers/todoController.js:149-232 | the row write, counter write, rank update, read-back and commit, each failure rolling all back |
| Store.Database.DeleteTodo | src/controllers/todoController.js:248-316 | a failing statement gives 500 with nothing changed; otherwise 404, then 403; success removes the row and decrements the counter exactly when the todo was completed; the log is never touched; the invariant is kept |
| Store.Database.Rollback | src/controllers/todoController.js:234-238 | the tables return to their state at `beginTransaction` |
| Store.Database.GetTodoById | src/controllers/todoController.js:319-361 | 500 exactly on a storage error; otherwise 404, then 403 "Unauthorized to access this todo", otherwise the stored row |
| Store.Database.GetTodos | src/controllers/todoController.js:6-33 | success exactly when storage does not fail, 500 otherwise; a success holds exactly the caller's todos, each once, as stored, newest first |
| Store.ScanUsers | src/controllers/rankController.js:73-79 | the scan lists every user exactly once: distinct user ids, one per user of the table, each row that user's columns |
| Store.Database.GetLeaderboard | src/controllers/rankController.js:66-102 | the reply is the leaderboard query over a scan listing every user once; 500 exactly on a storage error or negative limit; otherwise min(limit, users) rows, sorted, every user left out preceded by every listed row |

## Left out

- The connection pool, Express routing, the JSON envelopes' `success` flags, and logging
  are not modelled. The authentication middleware (`src/middleware/authMiddleware.js`) is
  not part of this model: the caller's user id is a parameter.
- Concurrency is not modelled. Each handler runs alone. Two toggles racing on the same
  user are therefore out of scope.
- `updated_at` and the timestamp values of `completed_at`, `rank_upgraded_at` and
  `upgraded_at` are not modelled. Only whether `completed_at` and `rank_upgraded_at` are
  set is kept. Events inserted later are taken to carry later timestamps.
- Store.NewerFirstIsPreorder and the leaderboard order fix only the sort keys. The order of
  rows with equal keys is the database's, and the model does not pin it down.
- `Date.now()` and `Math.random()` in generated ids are not modelled. The ids are
  parameters; a taken id is a primary-key failure.
- `parseInt` on numbers beyond 2^53 (precision loss) and array-valued query parameters are
  not modelled.
- A non-string `task` is not modelled. `trim` would throw and the reply would be 500, but
  the model types the task as a string.
- Rank strings that name `Object.prototype` members are not modelled.
- MySQL's case-insensitive collation of rank strings in `FIELD()` is not modelled.
- Id lookups (`WHERE todo_id = ?`, `WHERE user_id = ?`) are modelled as exact matches on
  map keys. The `VARCHAR` id columns compare under MySQL's default case-insensitive
  collation, so an id that differs only in letter case finds the row in the database but
  not in the model.
- Store.Database.GetTodoById, Store.Database.GetTodos and Store.Database.GetLeaderboard
  collapse every storage error into one `storageFails` flag, since each gives the same
  500 with nothing written.
- Store.Database.UpdateTodo, Store.Database.DeleteTodo and Store.Database.CreateTodo do not
  model the driver failing after a statement has taken effect, other than the read-back
  of `createTodo`.
- Store.Database.GetStats assumes `SUM` over the user's rows is returned as a number. The
  driver actually returns `DECIMAL` sums as strings.
- Store.Database.UpdateTodo moves the counter by the corrected comparison of line 190
  (Tables.CounterStepOf), not by the comparison as written (Tables.CounterStepAsWritten).
  Under the code as written a repeated flag moves the counter again, so the counter clause
  of `Valid()` holds only for the corrected handler (see Findings).
- RankService.History states only a length bound; its contents and order are stated by
  RankService.HistoryNewestFirst.

## Findings

| source | as written | input that shows it | evidently intended | confidence | as-written member | corrected member |
|---|---|---|---|---|---|---|
| src/controllers/todoController.js:190 | `completed !== wasCompleted` compares the JSON boolean with the stored flag, which the driver returns as the number 0 or 1, so the test is true for every supplied flag | `PUT` with `completed: true` on a todo that is already completed: the counter goes up a second time, and `completed: false` on an open todo takes one off | move the counter only when the flag actually changes, as the `completed_at` rule at lines 165-169 already does by truthiness | not executed | Tables.CounterStepAsWrittenMovesOnEveryFlag | Tables.CounterStepFollowsFlag |
