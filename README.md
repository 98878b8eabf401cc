# rb-bots core, modelled in Dafny

This project models the core logic of a set of small Telegram bots and one React org chart.
It then proves properties of that model.

- **Task ledgers.** There are three copies of a daily task list: DicMeneger, Suply and
  intl-dept-rolebot. Each stores users and dated tasks. `addTasks` de-duplicates titles by
  trimmed, lower-cased key. `toggleTask` flips a task between open and done. `statsForDate`
  counts tasks per assignee. `rollOverOpenTasks` carries open tasks to the next day, but not
  a series that is already done or already present on the target date.
- **The bots around those ledgers.** Suply has daily templates, title parsing and the
  admin policy. intl-dept-rolebot has roles, the admin's multi-user task flow and a
  per-user rollover.
- **ai-health's shared utilities.** These cover message splitting, the per-chat session
  store and the message-catalogue lookup.
- **kelajack-leads-bot.** A five-step lead form with phone and name normalisation and a
  three-language catalogue.
- **mamacare's answer guard.** This covers the triage zone and a dosage detector built on
  one regular expression.
- **The feedback bot's questionnaire** with its HTML report, and **the MBI burnout
  questionnaire** with its scoring.
- **akfa-orgchart.** The org index and its search, name resolution and open/close state,
  plus the admin panel's override tables.

State that the JavaScript changes in place is modelled as Dafny classes with `modifies`
clauses. Each class method is proved against a specification function on sequences and
maps. Pure helpers are functions, and lemmas relate them. Storage (lowdb JSON files,
SQLite, `localStorage`), Telegram I/O, clocks and id generators are parameters: a
timestamp is an `int` argument, and a fresh id is the ledger's counter.

Where the code does something other than its fallbacks suggest, the model follows the code.
The clearest case is `timeToCron` in Suply and intl-dept-rolebot. Its `|| 0` turns an
unparsable hour or minute into 0, but a time with no `:` has no minute part at all, so the
minute field is `undefined` (`BotCommon.TimeToCronNoColon`).

## Model

| member | source | states |
|---|---|---|
| Text.LowerCharFacts | DicMeneger/src/db.js:16 | lower-casing one character is idempotent and keeps white space and digits what they were |
| Text.LowerAt | DicMeneger/src/db.js:16 | `toLowerCase` keeps the length and maps each character on its own |
| Text.LeadLenFacts | DicMeneger/src/db.js:16 | the leading run counted before trimming is all white space and stops at the first non-space |
| Text.TrimSlice | DicMeneger/src/db.js:16 | `trim` returns a contiguous slice of its input; everything cut at either end is white space; the result has no white space at its ends |
| Text.TrimmedFixed | DicMeneger/src/db.js:64 | a string with no white space at its ends is left unchanged by `trim` |
| Text.TrimIdempotent | DicMeneger/src/db.js:64 | trimming twice is trimming once |
| Text.TrimEmptyIff | DicMeneger/src/db.js:65 | a title trims to the empty string exactly when it is all white space, in both directions |
| Text.LowerIdempotent | DicMeneger/src/db.js:16 | lower-casing twice is lower-casing once |
| Text.NormFacts | DicMeneger/src/db.js:16 | the title key is a normal form: trimming first or normalising twice changes nothing, and the key is empty exactly when the trimmed title is |
| Text.Collapse | kelajack-leads-bot/src/utils.js:15 | replacing each run of white space by one space never lengthens the text, keeps it empty exactly when it was empty, and keeps whether it starts with white space |
| Text.CollapseSingleSpaced | kelajack-leads-bot/src/utils.js:15 | after collapsing, every white-space character is a plain space and no two spaces are adjacent |
| Text.CollapseEnds | kelajack-leads-bot/src/utils.js:15 | collapsing keeps whether the text ends in white space |
| Text.TrimKeepsSingleSpaced | kelajack-leads-bot/src/utils.js:15 | trimming a single-spaced text leaves it single-spaced, with no white space at its ends |
| Text.CollapseChars | kelajack-leads-bot/src/utils.js:15 | collapsing writes only plain spaces and characters of its input |
| Text.CollapseFixed | kelajack-leads-bot/src/utils.js:15 | a single-spaced text is a fixed point of collapsing |
| Text.ContainsEmpty | akfa-orgchart/src/App.jsx:24-34 | `includes("")` holds for every text |
| Text.SplitJoin | intl-dept-rolebot/src/index.js:144-145 | joining the pieces of a split on the same character gives the input back, and no piece holds the separator |
| Text.SplitLines | Suply/src/utils.js:10 | splitting on `\r?\n` gives one piece per line-feed piece: a carriage return before a line feed goes with the separator |
| Text.TrimSnocSpace | Suply/src/utils.js:11 | white space added at the end is trimmed away again |
| Text.TrimDropCR | Suply/src/utils.js:10-11 | dropping the carriage return before trimming makes no difference to the trimmed line |
| Text.NatToString | intl-dept-rolebot/src/utils.js:4-5 | `String(n)` writes at least one character, all decimal digits |
| Text.NatToStringRoundTrip | intl-dept-rolebot/src/utils.js:4-5 | reading back the digits `String(n)` writes gives `n` |
| TaskCore.KeysOnBucket | DicMeneger/src/db.js:145-158 | a series key is present on a date exactly when its title key is in that assignee's bucket for the date |
| TaskCore.InvariantsTail | DicMeneger/src/db.js:69-79 | dropping the first task keeps the ledger invariants, and no later task repeats its id or its series on its date |
| TaskCore.InvariantsCons | DicMeneger/src/db.js:69-79 | putting a task with a fresh id and a consistent completion time in front keeps the invariants |
| TaskCore.AppendFresh | DicMeneger/src/db.js:69-80 | appending open tasks numbered from the counter keeps ids below the counter and pairwise distinct, and keeps a completion time exactly on done tasks |
| TaskCore.AppendFreshKeys | DicMeneger/src/db.js:58-81 | appending tasks for one date whose series are new to that date and pairwise distinct keeps every series at most once per date |
| TaskCore.AdmitFresh | DicMeneger/src/db.js:63-67 | every title `addTasks` stores is trimmed and non-blank, and its key was not in the bucket |
| TaskCore.AdmitFrom | DicMeneger/src/db.js:63-71 | every stored title is the trimmed form of an input title |
| TaskCore.AdmitDistinct | DicMeneger/src/db.js:67-81 | no two stored titles share a key, because each stored key joins the seen set |
| TaskCore.AdmitComplete | DicMeneger/src/db.js:63-81 | every non-blank input title has its key in the bucket or among the stored titles afterwards: nothing is lost |
| TaskCore.AdmitNothingNew | DicMeneger/src/db.js:63-67 | when every input title is blank or already in the bucket, nothing is stored |
| TaskCore.Admit | DicMeneger/src/db.js:63-81 | the titles a de-duplicating `addTasks` stores; properties in the `TaskCore.Admit…` lemmas |
| TaskCore.AddTasksTo | DicMeneger/src/db.js:53-86 | the loop appends exactly the admitted titles as open tasks numbered from the counter, and advances the counter by their number |
| TaskCore.AddKeepsInvariants | DicMeneger/src/db.js:53-86 | `addTasks` keeps the ledger invariants and keeps each series at most once per date |
| TaskCore.SelectFrom | DicMeneger/src/db.js:167-170 | every carried task is a candidate whose series is neither done nor already on the target date |
| TaskCore.SelectDistinct | DicMeneger/src/db.js:167-185 | no series is carried twice, because each carried key joins `alreadyTomorrow` |
| TaskCore.SelectComplete | DicMeneger/src/db.js:167-185 | every candidate's series ends up blocked, already present, or carried |
| TaskCore.SelectNothingNew | DicMeneger/src/db.js:167-170 | when every candidate's series is blocked or present, nothing is carried |
| TaskCore.Select | DicMeneger/src/db.js:167-185 | the candidates a rollover carries; properties in the `TaskCore.Select…` lemmas |
| TaskCore.BucketOf | DicMeneger/src/db.js:90-91 | the bucket holds exactly the ledger's tasks for that assignee and date |
| TaskCore.TalliesCount | DicMeneger/src/db.js:124-135 | an assignee has a tally exactly when they have a task that day; the tally is the bucket's size, its done count and its open count |
| TaskCore.CountStatusBound | DicMeneger/src/db.js:130-132 | done plus open never exceeds the total, and equals it when every status is open or done |
| TaskCore.TallyBalance | DicMeneger/src/db.js:129-132 | in every tally, done plus open is at most total, and equal when no task has a third status |
| TaskCore.StatsForDate | DicMeneger/src/db.js:124-135 | the loop over the day's tasks builds exactly the fold `Tallies` |
| TaskCore.InsertByCreated | DicMeneger/src/db.js:92 | inserting into a list sorted by creation time keeps it sorted and adds exactly that task; where it lands among equal times is `TaskCore.InsertByCreatedStable` |
| TaskCore.SortByCreated | DicMeneger/src/db.js:92 | sorting by `createdAt` gives a sorted permutation of the input in which tasks with equal `createdAt` keep their input order, as the stable `Array.prototype.sort` does |
| TaskCore.ListBucket | DicMeneger/src/db.js:88-93 | the listing is sorted by creation time and is a permutation of the bucket; tasks with equal `createdAt` keep their bucket order |
| TaskCore.CreatedAt | DicMeneger/src/db.js:92 | the tasks of a list created at one given time, in list order, so no longer than the list |
| TaskCore.CreatedAtMembers | DicMeneger/src/db.js:92 | a task is among those created at `c` exactly when it is in the list and was created at `c` |
| TaskCore.CreatedAtAppend | DicMeneger/src/db.js:92 | taking the tasks created at one time distributes over concatenation |
| TaskCore.InsertByCreatedStable | DicMeneger/src/db.js:92 | inserting a task after the tasks created no later than it keeps the order of each group of equal `createdAt`, with the new task last in its own group |
| TaskCore.StableSortUnique | DicMeneger/src/db.js:92 | two sorted lists with the same tasks in the same order for every creation time are equal, so a stable sort has exactly one result |
| TaskCore.ListBucketUnique | DicMeneger/src/db.js:88-93 | any sorted list that keeps the bucket order among equal creation times is the listing |
| TaskCore.FindTask | DicMeneger/src/db.js:98-99 | `find` returns the first index holding the id, or none when no task has it |
| TaskCore.Flip | DicMeneger/src/db.js:101-106 | toggling keeps id, title, date, assignee, creator and creation time; the task becomes done exactly when it was not done; it has a completion time exactly when it is done |
| TaskCore.FlipTwice | DicMeneger/src/db.js:101-106 | toggling twice restores an open task, and restores a done task except for its completion time |
| TaskCore.FlipKeepsInvariant | DicMeneger/src/db.js:96-121 | toggling a stored task keeps the ledger invariants |
| TaskCore.FindUser | DicMeneger/src/db.js:33 | `find` by Telegram id returns the first matching user, or none when none matches |
| TaskCore.UpsertFacts | DicMeneger/src/db.js:30-48 | after `ensureUser` there is exactly one record for the id; ids stay unique; a truthy `username` or `fullName` is stored, and a falsy one keeps the stored value (null for a new user); the creation time is kept; a new user adds exactly one record; every other user record is unchanged |
| TaskCore.Upsert | DicMeneger/src/db.js:30-48 | `ensureUser`; properties in `TaskCore.UpsertFacts` |
| DicLedger.OpenOnMembers | DicMeneger/src/db.js:160-162 | the candidates are exactly the open tasks dated `fromDate` |
| DicLedger.PruneMembers | DicMeneger/src/db.js:111-116 | the filter keeps exactly the toggled task, other assignees' tasks, tasks up to its date, and tasks of other series |
| DicLedger.PruneKeeps | DicMeneger/src/db.js:111-116 | the filter keeps the ledger invariants and keeps each series at most once per date |
| DicLedger.ToggleDoneCleansSeries | DicMeneger/src/db.js:104-116 | marking a task done keeps it; leaves no later copy of its series for that assignee; keeps every task of another series or not later |
| DicLedger.RolloverKeepsInvariants | DicMeneger/src/db.js:142-190 | a rollover keeps the ledger invariants and keeps each series at most once per date |
| DicLedger.RolloverCarries | DicMeneger/src/db.js:160-185 | each copy is open, dated `toDate`, made by `system:rollover`, with its source's title and assignee; its source is an open task of `fromDate` whose series is neither done nor on `toDate`; every open task of `fromDate` of an unfinished series is on `toDate` afterwards |
| DicLedger.RolloverIdempotent | DicMeneger/src/db.js:142-190 | running the rollover a second time carries nothing |
| DicLedger.RollOverTo | DicMeneger/src/db.js:164-186 | the loop appends exactly the selected copies, numbered from the counter |
| DicLedger.Ledger.constructor | DicMeneger/src/db.js:8-12 | the ledger starts with no users and no tasks |
| DicLedger.Ledger.EnsureUser | DicMeneger/src/db.js:30-48 | the users become `Upsert` of the old users, and the returned record is the one stored for the id; tasks are untouched |
| DicLedger.Ledger.AddTasks | DicMeneger/src/db.js:53-86 | appends exactly the admitted titles as new open tasks and returns them; keeps the invariants and per-date series uniqueness |
| DicLedger.Ledger.ListTasksForAssignee | DicMeneger/src/db.js:88-93 | the listing is sorted by creation time and is a permutation of the bucket; tasks with equal `createdAt` keep their bucket order |
| DicLedger.Ledger.ToggleTask | DicMeneger/src/db.js:96-121 | an unknown id changes nothing and returns null; otherwise the first task with the id is flipped, and marking it done also prunes its later copies |
| DicLedger.Ledger.StatsForDate | DicMeneger/src/db.js:124-135 | returns the per-assignee tallies of the date |
| DicLedger.Ledger.RollOverOpenTasks | DicMeneger/src/db.js:142-190 | appends and returns exactly the selected copies; keeps the invariants and per-date series uniqueness |
| SuplyLedger.CarryCreator | Suply/src/db.js:170 | a copy's creator is never empty: the source's creator when it has one, otherwise `system` |
| SuplyLedger.NotDoneOnMembers | Suply/src/db.js:155-157 | the candidates are exactly the tasks dated `fromDate` that are not done, whatever other status they carry |
| SuplyLedger.RollOverTo | Suply/src/db.js:159-181 | the loop appends exactly the selected copies, numbered from the counter, and counts them |
| SuplyLedger.RolloverKeepsInvariants | Suply/src/db.js:143-182 | a rollover keeps the ledger invariants and keeps each series at most once per date |
| SuplyLedger.RolloverCarries | Suply/src/db.js:149-178 | each copy is open with no completion time, dated `toDate`, with its source's title and assignee and the defaulted creator; its source is a not-done task of `fromDate` whose series is not on `toDate`; every not-done task of `fromDate` has its series on `toDate` afterwards |
| SuplyLedger.RolloverIdempotent | Suply/src/db.js:143-182 | running the rollover a second time creates nothing |
| SuplyLedger.Ledger.constructor | Suply/src/db.js:15-18 | the ledger starts with no users and no tasks |
| SuplyLedger.Ledger.EnsureUser | Suply/src/db.js:36-54 | the users become `Upsert` of the old users, and the returned record is the one stored for the id; tasks are untouched |
| SuplyLedger.Ledger.AddTasks | Suply/src/db.js:62-97 | appends exactly the admitted titles as new open tasks and returns them; keeps the invariants and per-date series uniqueness |
| SuplyLedger.Ledger.ListTasksForAssignee | Suply/src/db.js:99-104 | the listing is sorted by creation time and is a permutation of the bucket; tasks with equal `createdAt` keep their bucket order |
| SuplyLedger.Ledger.ToggleTask | Suply/src/db.js:106-121 | an unknown id changes nothing and returns null; otherwise only the first task with the id is flipped, with no pruning |
| SuplyLedger.Ledger.StatsForDate | Suply/src/db.js:124-135 | returns the per-assignee tallies of the date |
| SuplyLedger.Ledger.RollOverOpenTasks | Suply/src/db.js:143-182 | appends exactly the selected copies and returns their number; keeps the invariants and per-date series uniqueness |
| IntlLedger.EnsureArrays | intl-dept-rolebot/src/db.js:38-42 | a missing user or task array becomes empty and a missing config becomes `{}`; a present one is kept as it is |
| IntlLedger.EnsureArraysIdempotent | intl-dept-rolebot/src/db.js:38-42 | repairing an already repaired document changes nothing |
| IntlLedger.FindIntlUser | intl-dept-rolebot/src/db.js:48 | `find` by id returns the first matching user, or none when none matches |
| IntlLedger.UpsertIntlFacts | intl-dept-rolebot/src/db.js:44-66 | ids stay unique and one record holds the id; its `updatedAt` is now; for both `username` and `fullName`, a truthy new value wins, then a truthy stored one, otherwise null; a known user keeps `createdAt`; a new user is appended with both times now; every other user record is unchanged |
| IntlLedger.TrimmedNonBlankFacts | intl-dept-rolebot/src/db.js:80-82 | every stored title is the non-blank trim of an input title; every non-blank input is stored; nothing is added; with no blank input every title is stored |
| IntlLedger.RepeatsStoredTwice | intl-dept-rolebot/src/db.js:74-98 | unlike the other two ledgers, intl's `addTasks` does not de-duplicate: the same title given twice is stored twice |
| IntlLedger.TotalsFacts | intl-dept-rolebot/src/db.js:128-140 | an assignee has an entry exactly when they have tasks that day; `total` is the bucket's size, `done` its done count, and `done <= total` |
| IntlLedger.AddTasksNoDedupTo | intl-dept-rolebot/src/db.js:80-95 | the loop appends one open task per non-blank trimmed title, with ids taken from the incremented counter |
| IntlLedger.Store.constructor | intl-dept-rolebot/src/db.js:13-20 | the loaded document, repaired by `ensureArrays`, becomes the store's state |
| IntlLedger.Store.NextTaskId | intl-dept-rolebot/src/db.js:68-72 | increments the counter and returns its new value; nothing else changes |
| IntlLedger.Store.EnsureUser | intl-dept-rolebot/src/db.js:44-66 | the users become `UpsertIntl` of the old users, and the returned record is the one stored for the id |
| IntlLedger.Store.AddTasks | intl-dept-rolebot/src/db.js:74-98 | appends and returns one open task per non-blank trimmed title, numbered from the counter plus one |
| IntlLedger.Store.ListTasksForAssignee | intl-dept-rolebot/src/db.js:100-109 | the listing is sorted by creation time and is a permutation of the bucket; tasks with equal `createdAt` keep their bucket order |
| IntlLedger.Store.ToggleTask | intl-dept-rolebot/src/db.js:111-126 | an unknown id changes nothing and returns null; otherwise only the first task with the id is flipped |
| IntlLedger.Store.StatsForDate | intl-dept-rolebot/src/db.js:128-140 | returns the total and done count per assignee for the date |
| IntlBot.OpenNonBlankOnMembers | intl-dept-rolebot/src/index.js:206-212 | the candidates are exactly the open tasks of `fromY` whose title is not blank |
| IntlBot.OrderFacts | intl-dept-rolebot/src/index.js:214-225 | the per-assignee keys are listed once each, in first-set order; they are exactly the assignees of the selected tasks; no list is empty |
| IntlBot.TitleMapMembers | intl-dept-rolebot/src/index.js:214-222 | every collected title is a selected task's title under its own assignee, and every selected task's title is collected |
| IntlBot.TitleMapDistinct | intl-dept-rolebot/src/index.js:214-222 | no assignee's collected titles share a key |
| IntlBot.PlanRollover | intl-dept-rolebot/src/index.js:197-222 | the two loops build exactly the key order and the title map of the selection: `haveByUid` skips series present on `toY` and series already collected |
| IntlBot.Stored | intl-dept-rolebot/src/db.js:80-82 | what `addTasks` keeps of each title list has the same assignees |
| IntlBot.CreateGroups | intl-dept-rolebot/src/index.js:224-235 | the loop over the assignees appends each one's group in order, numbered on from the counter, and maps an assignee to its group only when the group is non-empty |
| IntlBot.RollOverTo | intl-dept-rolebot/src/index.js:193-236 | the rollover appends exactly `Carried` and returns exactly `CarriedByUid` |
| IntlBot.CarrySound | intl-dept-rolebot/src/index.js:224-235 | the created tasks are numbered on without gaps; each is open, undone, on `toY`, by `system`, with one of its assignee's stored titles |
| IntlBot.CarryComplete | intl-dept-rolebot/src/index.js:224-235 | every stored title of every listed assignee gets a task |
| IntlBot.CarryMapFacts | intl-dept-rolebot/src/index.js:233 | an assignee is in the returned map exactly when listed with a non-empty list; their entry has one task per stored title, all theirs and all appended |
| IntlBot.CarryDistinct | intl-dept-rolebot/src/index.js:214-235 | distinct assignees with key-distinct lists give key-distinct created tasks |
| IntlBot.TrimmedNonBlankDistinct | intl-dept-rolebot/src/db.js:80-82 | trimming and dropping blanks keeps key-distinct titles key-distinct |
| IntlBot.SelectionFacts | intl-dept-rolebot/src/index.js:198-222 | every selected task is an open, non-blank task of `fromY` whose series is not on `toY`, and no series is selected twice |
| IntlBot.StoredFacts | intl-dept-rolebot/src/index.js:214-233 | each stored title is the trim of a selected task's title under the same assignee; every selected task's trimmed title is stored; no stored list is empty |
| IntlBot.RolloverNumbering | intl-dept-rolebot/src/index.js:224-235 | the k-th created task has id first+k, is open and undone, dated `toY`, made by `system` at `now` |
| IntlBot.RolloverCreates | intl-dept-rolebot/src/index.js:193-236 | every created task copies, in trimmed form, an open task of `fromY` under the same assignee and series, and that series was not on `toY` |
| IntlBot.RolloverCovers | intl-dept-rolebot/src/index.js:193-236 | after the rollover, every open non-blank task of `fromY` has its series on `toY` |
| IntlBot.RolloverNoDuplicates | intl-dept-rolebot/src/index.js:197-222 | the rollover creates no series twice and none already on `toY` |
| IntlBot.RolloverKeepsInvariants | intl-dept-rolebot/src/index.js:193-236 | the rollover keeps ids below the counter and pairwise distinct, and completion times exactly on done tasks |
| IntlBot.RolloverKeepsBucketsUnique | intl-dept-rolebot/src/index.js:193-236 | when every series is at most once per date before the rollover, it still is afterwards |
| IntlBot.RolloverIdempotent | intl-dept-rolebot/src/index.js:193-236 | running the rollover again, at any time and counter, selects nothing, creates nothing and returns an empty map |
| IntlBot.CarriedByUidFacts | intl-dept-rolebot/src/index.js:224-235 | the returned map's keys are exactly the assignees with a selected task; each entry is non-empty and holds only that assignee's appended tasks |
| IntlBot.RollOverOpenTasks | intl-dept-rolebot/src/index.js:193-236 | against the store: the tasks grow by exactly `Carried`, the counter by its length, and the result is `CarriedByUid`; users and config are untouched |
| IntlBot.DailyToCreate | intl-dept-rolebot/src/index.js:166-180 | titles come only from the first table found for the weekday, then `*`, then Monday; they are the assignee's non-empty list less the titles already in today's bucket, in both directions |
| IntlBot.EnsureDailyTemplatesForDay | intl-dept-rolebot/src/index.js:166-188 | returns `DailyResult`: null with no list, `[]` when everything is present, otherwise the tasks appended for the missing titles; the store grows by exactly those |
| IntlBot.AddedKeysPresent | intl-dept-rolebot/src/index.js:182-187 | after the call, every non-blank title it passed to `addTasks` has its key in today's bucket |
| IntlBot.BlankStoresNothing | intl-dept-rolebot/src/db.js:80-82 | a list of blank titles stores nothing |
| IntlBot.DailyLeftoverBlank | intl-dept-rolebot/src/index.js:166-188 | after one call, a second call would find only blank titles still missing |
| IntlBot.DailyIdempotent | intl-dept-rolebot/src/index.js:166-188 | a second call on the same day creates nothing: null stays null, and otherwise the result is `[]` |
| BotCommon.FilterNewMembers | intl-dept-rolebot/src/index.js:178-180 | a title survives the filter exactly when its key is not yet present; the filter never lengthens the list |
| BotCommon.FilterNew | intl-dept-rolebot/src/index.js:178-180 | the titles whose key is not yet present, in order; properties in `BotCommon.FilterNewMembers` |
| BotCommon.JsWeekdayISO | intl-dept-rolebot/src/index.js:139-142 | Sunday's 0 becomes 7; the result is an ISO weekday 1..7 congruent to `getDay()` modulo 7 |
| BotCommon.DigitRun | intl-dept-rolebot/src/index.js:146 | `parseInt` reads the longest leading run of decimal digits, and no further |
| BotCommon.SplitOnNone | intl-dept-rolebot/src/index.js:144-145 | a time with no `:` splits into itself alone |
| BotCommon.SplitOnFirst | intl-dept-rolebot/src/index.js:144-145 | splitting `a:b`, with no `:` in `a`, gives `a` followed by the pieces of `b` |
| BotCommon.ParseNat | intl-dept-rolebot/src/index.js:146 | `parseInt(n) \|\| 0` reads back every number that `String` writes |
| BotCommon.ParseNoDigits | intl-dept-rolebot/src/index.js:146 | a piece with no digits after its optional sign parses to 0 |
| BotCommon.ParseIntOr0 | intl-dept-rolebot/src/index.js:146 | `parseInt(n) || 0`; properties in `BotCommon.DigitRun`, `BotCommon.ParseNat` and `BotCommon.ParseNoDigits` |
| BotCommon.TimeToCron | intl-dept-rolebot/src/index.js:143-148 | `timeToCron`; properties in `BotCommon.TimeToCronRoundTrip` and `BotCommon.TimeToCronNoColon` |
| BotCommon.TimeToCronRoundTrip | intl-dept-rolebot/src/index.js:143-148 | `timeToCron("h:m", dow)` is `"m h * * dow"` |
| BotCommon.TimeToCronNoColon | intl-dept-rolebot/src/index.js:143-148 | a time with no colon gives the minute field `undefined` |
| BotCommon.StripEmoji | intl-dept-rolebot/src/index.js:151 | the emoji-removing `replace` keeps exactly the non-emoji characters, in order |
| BotCommon.LowerCasedFixed | intl-dept-rolebot/src/index.js:152 | lower-casing text that is already lower case changes nothing |
| BotCommon.StripEmojiFixed | intl-dept-rolebot/src/index.js:151 | text without emoji is left as it is |
| BotCommon.NormBtnTextFacts | intl-dept-rolebot/src/index.js:149-155 | a normalised button text is lower case, has no emoji, no white space at its ends, and only single plain spaces |
| BotCommon.NormBtnTextIdempotent | intl-dept-rolebot/src/index.js:149-155 | normalising a button text twice is normalising it once |
| BotCommon.NormBtnText | intl-dept-rolebot/src/index.js:149-155 | `normBtnText`; properties in `BotCommon.NormBtnTextFacts` and `BotCommon.NormBtnTextIdempotent` |
| BotCommon.DedupFacts | intl-dept-rolebot/src/index.js:118 | `new Set(list)` has each value once, and exactly the list's values |
| BotCommon.DedupDistinct | intl-dept-rolebot/src/index.js:125 | a list without repeats passes through `new Set` unchanged, in order |
| BotCommon.AddId | intl-dept-rolebot/src/index.js:127-131 | adding an admin id keeps the list free of repeats and holds exactly the old ids and the new one |
| BotCommon.RemoveIdFacts | intl-dept-rolebot/src/index.js:132-136 | removing an id keeps exactly the other ids and no repeats; it shortens the list by one when the id was present, and changes nothing otherwise |
| BotCommon.RemoveAdded | intl-dept-rolebot/src/index.js:127-136 | removing an id just added gives back the old list |
| BotCommon.RemoveAppend | intl-dept-rolebot/src/index.js:132-136 | removing an id appended to a list without it removes nothing else |
| BotCommon.Admins.constructor | intl-dept-rolebot/src/index.js:111-119 | the admin set starts as the initial list without repeats |
| BotCommon.Admins.LoadFromDb | intl-dept-rolebot/src/index.js:111-119 | a missing or empty stored list is replaced by the initial one; the set is the stored list without repeats |
| BotCommon.Admins.Save | intl-dept-rolebot/src/index.js:120-126 | the stored list becomes the given list, and the set its values without repeats |
| BotCommon.Admins.AddAdmin | intl-dept-rolebot/src/index.js:127-131 | the set gains the id and is stored |
| BotCommon.Admins.RemoveAdmin | intl-dept-rolebot/src/index.js:132-136 | the set loses the id and is stored |
| BotCommon.Admins.RmAdmin | intl-dept-rolebot/src/index.js:430-441 | removal is refused exactly when the target is the only admin, and then nothing changes; otherwise the target is removed and the new set is stored; a non-empty admin set never becomes empty |
| BotCommon.Throttle.constructor | intl-dept-rolebot/src/index.js:1037 | the throttle starts with no key recorded |
| BotCommon.Throttle.ShouldSend | intl-dept-rolebot/src/index.js:1038-1044 | the decision and the new map are `Decide` of the old map: send exactly when the window has passed since the key's last send, and then record now; otherwise nothing changes |
| BotCommon.Decide | intl-dept-rolebot/src/index.js:1038-1044 | one `shouldSend` call on a map of last send times: the decision and the map afterwards |
| BotCommon.ThrottleWindow | intl-dept-rolebot/src/index.js:1038-1044 | after a send, a second call for the same key within the window is refused and changes nothing, one at or past the window sends and records the new time, and a call for another key decides as if the first send had not happened |
| SuplyBot.NormSetSnoc | Suply/src/index.js:116-117 | appending a trimmed title adds exactly its key to the key set |
| SuplyBot.NormSetAppend | Suply/src/index.js:124-126 | the keys of two lists joined are the union of their keys |
| SuplyBot.UniqueNormalized | Suply/src/index.js:113-120 | the loop with its `seen` set computes exactly `UniqueNorm` |
| SuplyBot.UniqueNormKeys | Suply/src/index.js:113-120 | de-duplication never lengthens the list and keeps exactly the same set of keys |
| SuplyBot.UniqueNormFrom | Suply/src/index.js:117 | every kept title is trimmed and is the trim of an input title |
| SuplyBot.UniqueNormDistinct | Suply/src/index.js:113-120 | no two kept titles share a key |
| SuplyBot.UniqueNormFirst | Suply/src/index.js:116-117 | the first title with a given key is the one kept, in its trimmed form |
| SuplyBot.TitlesFor | Suply/src/index.js:121-128 | the `*` list, then the weekday list (each only when non-empty), de-duplicated by key |
| SuplyBot.TitlesForUnion | Suply/src/index.js:121-128 | the titles' keys are the union of both lists' keys, each once; there are no titles exactly when both lists are empty or missing |
| SuplyBot.DailyCases | Suply/src/index.js:129-137 | the three outcomes: null with no titles, `[]` when every key is present, otherwise the tasks `addTasks` creates for the rest |
| SuplyBot.ListedNorms | Suply/src/index.js:132-133 | the keys of the sorted listing of today's bucket are exactly the bucket's keys |
| SuplyBot.EnsureDailyTemplatesForDay | Suply/src/index.js:129-137 | returns `DailyResult` and grows the ledger by exactly the tasks returned; users are untouched |
| SuplyBot.BucketAfterAdd | Suply/src/db.js:62-97 | after appending tasks for some titles, the bucket's keys are the old keys plus those titles' keys |
| SuplyBot.DailyCreatesFresh | Suply/src/index.js:129-137 | every created task is open, undone, made by `system` for the user today; its key was missing from the bucket, and its title is one of the configured titles |
| SuplyBot.FilteredKeysPresent | Suply/src/index.js:133-136 | after adding the filtered titles, every non-blank title given has its key in today's bucket |
| SuplyBot.DailyCoversConfigured | Suply/src/index.js:129-137 | after a call that returns a list, every non-blank configured title has its key in today's bucket |
| SuplyBot.DailyIdempotent | Suply/src/index.js:129-137 | a second call on the same day creates nothing: null stays null, and otherwise the result is `[]` |
| ParseLines.SplitOnJoin | intl-dept-rolebot/src/utils.js:12 | splitting `a + "\n" + b` gives the pieces of `a` followed by the pieces of `b` |
| ParseLines.KeepAppend | intl-dept-rolebot/src/utils.js:13-14 | mapping and filtering distributes over joined line lists |
| ParseLines.KeepPointwise | intl-dept-rolebot/src/utils.js:13-14 | line lists that clean to the same lines give the same result |
| ParseLines.KeepFacts | intl-dept-rolebot/src/utils.js:13-14 | the result is no longer than the line list, and each kept line is the non-empty cleaning of some line |
| ParseLines.KeepIgnoresCR | intl-dept-rolebot/src/utils.js:12-14 | when cleaning ignores a final carriage return, splitting on `\r?\n` gives the same result as splitting on `\n` |
| ParseLines.TrimIgnoresCR | intl-dept-rolebot/src/utils.js:12-13 | trimming removes a final carriage return anyway |
| ParseLines.IntlByLines | intl-dept-rolebot/src/utils.js:9-15 | for a present text, the result is its `\n` lines, trimmed, with empty ones dropped |
| ParseLines.IntlParseLinesFacts | intl-dept-rolebot/src/utils.js:9-15 | a missing or empty text gives `[]`; there is at most one title per line; each title is non-empty, trimmed and holds no line feed |
| ParseLines.IntlParseLinesAppend | intl-dept-rolebot/src/utils.js:9-15 | parsing two texts joined by a line feed gives the two results one after the other |
| ParseLines.IntlParseOneLine | intl-dept-rolebot/src/utils.js:9-15 | a single line gives its trim, or nothing when it is blank |
| ParseLines.SplitOnNoSep | intl-dept-rolebot/src/utils.js:12 | a text with no line feed is one line |
| ParseLines.BulletLead | Suply/src/utils.js:8 | the bullet pattern takes the longest leading run of bullet marks and white space, and no more |
| ParseLines.CleanBulletLineFacts | Suply/src/utils.js:11 | a cleaned line is trimmed, does not start with a bullet mark, and holds only characters of the line |
| ParseLines.BulletLeadSnocCR | Suply/src/utils.js:10-11 | a final carriage return makes no difference to the cleaned line |
| ParseLines.CleanBulletIgnoresCR | Suply/src/utils.js:10-11 | cleaning ignores a final carriage return on every line |
| ParseLines.SuplyByLines | Suply/src/utils.js:7-13 | for a present text, the result is its `\n` lines, bullets and white space cut, with empty ones dropped |
| ParseLines.SuplyParseLinesFacts | Suply/src/utils.js:7-13 | only a missing text fails (`split` on `undefined` throws); there is at most one title per line; each title is non-empty, trimmed, starts with no bullet and holds no line feed |
| ParseLines.SuplyParseLinesAppend | Suply/src/utils.js:7-13 | parsing two texts joined by a line feed gives the two results one after the other |
| ParseLines.SuplyParseOneLine | Suply/src/utils.js:7-13 | a single line gives its cleaned form, or nothing when that is empty |
| ParseLines.VariantsDifferOnBullets | Suply/src/utils.js:8-11 | the two bots' parsers differ: intl keeps `- a` whole, Suply strips the bullet to `a` |
| ParseLines.VariantsDifferOnMissing | intl-dept-rolebot/src/utils.js:10 | on a missing text intl returns `[]`, while Suply's parser throws |
| Policies.SeriesAwareWithinPlain | DicMeneger/src/db.js:148-170 | DicMeneger's rollover, which also skips finished series, carries no series that Suply's plain rollover would not |
| Policies.SeriesAwareStricter | DicMeneger/src/db.js:148-170 | on a series done yesterday and still open today, DicMeneger carries nothing where Suply carries the open task |
| Policies.OverrideWithinUnion | intl-dept-rolebot/src/index.js:166-174 | when intl's weekday-or-`*` table has a list for the user, Suply's union of `*` and weekday lists covers all its keys |
| Policies.UnionDiffersFromOverride | Suply/src/index.js:121-128 | with both a `*` and a weekday list, Suply uses both while intl uses only the weekday table |
| Policies.OverrideDropsStar | intl-dept-rolebot/src/index.js:166-174 | a weekday table without the user hides the user's `*` list in intl, while Suply still uses it |
| Policies.DedupWithinNoDedup | intl-dept-rolebot/src/db.js:74-98 | every key the de-duplicating `addTasks` stores is also stored by intl's, which does not de-duplicate |
| Policies.NoDedupStoresRepeats | intl-dept-rolebot/src/db.js:80-95 | `["a", "a"]` is stored once by DicMeneger and Suply, and twice by intl |
| SplitMessage.LastIndexOf | ai-health/shared/utils/splitMessage.js:6-7 | the result is -1 or a position at most `from` holding the character, and no later position up to `from` holds it |
| SplitMessage.CutPoint | ai-health/shared/utils/splitMessage.js:6-8 | the cut is in `1..max`; a cut short of `max` sits on a line break or a space; a line break at or past 60% of `max` is the last one up to `max` and is where the cut goes |
| SplitMessage.ChunksConcat | ai-health/shared/utils/splitMessage.js:3-13 | joining the chunks gives back the whole text |
| SplitMessage.ChunksBounded | ai-health/shared/utils/splitMessage.js:5-12 | every chunk is non-empty and at most `max` long; a non-empty text of at most `max` is one chunk |
| SplitMessage.Split | ai-health/shared/utils/splitMessage.js:1-14 | an absent or empty text gives no chunks; otherwise the chunks join back to the text, each is non-empty and at most `max` long, and a short text is returned whole |
| SplitMessage.CutsAtLateLineBreak | ai-health/shared/utils/splitMessage.js:6-8 | with a line break at or past 60% of `max`, the first chunk ends just before the last such line break and reaches at least that far |
| SessionStore.Sanitize | ai-health/shared/memory/store.js:12-13 | same length; every character becomes safe (`[a-z0-9_-]`, any case) and safe characters are kept |
| SessionStore.SanitizeIdempotent | ai-health/shared/memory/store.js:12-13 | sanitising is idempotent and leaves a safe name unchanged |
| SessionStore.FileKeyDistinct | ai-health/shared/memory/store.js:10-15 | two different digit-string user ids never share a session file for the same profile |
| SessionStore.ReadSession | ai-health/shared/memory/store.js:20-33 | a missing or unparsable file reads as the empty session |
| SessionStore.ReadWritten | ai-health/shared/memory/store.js:35-43 | reading back a saved session gives that session, with a zero timestamp replaced by the save time |
| SessionStore.TotalLenAppend | ai-health/shared/memory/store.js:73 | the total content length of two lists of messages together is the sum of their totals |
| SessionStore.LastNShorter | ai-health/shared/memory/store.js:48 | keeping only the last `n` messages never raises the total length |
| SessionStore.Store.constructor | ai-health/shared/memory/store.js:5 | the store starts with the given files |
| SessionStore.Store.GetSession | ai-health/shared/memory/store.js:20-22 | a user and profile with no file get the empty session |
| SessionStore.Store.Append | ai-health/shared/memory/store.js:45-52 | the new message is last; the list is the old list plus the message, cut to its last 18 entries; the summary is kept, the time is `now`, and only that file changes; at a non-zero `now` the session is not expired for 48 hours |
| SessionStore.Store.SetSummary | ai-health/shared/memory/store.js:54-60 | the summary and the time are replaced, the messages are kept, and only that file changes; at a non-zero `now` the session is not expired for 48 hours |
| SessionStore.Store.Reset | ai-health/shared/memory/store.js:62-65 | exactly the file for that user and profile is removed |
| SessionStore.Store.ResetAllProfiles | ai-health/shared/memory/store.js:67-69 | exactly the user's files for the four profiles are removed |
| SessionStore.Store.ShouldSummarize | ai-health/shared/memory/store.js:71-75 | a user with no session file is never due for a summary |
| SessionStore.Store.IsExpired | ai-health/shared/memory/store.js:77-81 | only a session with a timestamp can expire, so a missing session never does |
| SessionStore.Expired | ai-health/shared/memory/store.js:77-81 | the expiry test on a session: a timestamp and more than 48 hours since it |
| SessionStore.ResetAllClears | ai-health/shared/memory/store.js:67-69 | after resetting all profiles every profile reads as the empty session, and other users' files are untouched |
| SessionStore.FreshNotExpired | ai-health/shared/memory/store.js:35-81 | a session saved at a non-zero `now` reads back as not expired at any time up to 48 hours later, and as expired one millisecond after that |
| I18n.ReplaceAbsent | ai-health/shared/utils/i18n.js:18-20 | a text without `{` is left unchanged by replacing a placeholder |
| I18n.ReplaceOne | ai-health/shared/utils/i18n.js:18-20 | one placeholder between two brace-free texts is replaced by the value with its `$` patterns expanded, and by the value itself when it has no `$` |
| I18n.Expand | ai-health/shared/utils/i18n.js:19 | the replacement for one match: `$$` is `$`, `$&` the match, `` $` `` the text before it, `$'` the text after it, and any other character stands for itself |
| I18n.ExpandPlain | ai-health/shared/utils/i18n.js:19 | a value without `$` is inserted as it is |
| I18n.ReplaceFrom | ai-health/shared/utils/i18n.js:19 | `replaceAll` with a string pattern: left to right, without overlaps, each match replaced by its expansion |
| I18n.ReplaceAll | ai-health/shared/utils/i18n.js:19 | `str.replaceAll(pat, rep)`: the scan from the start of the text |
| I18n.ReplaceFromAbsent | ai-health/shared/utils/i18n.js:19 | a scan over text in which the pattern does not occur leaves the text unchanged |
| I18n.ReplaceFromSingle | ai-health/shared/utils/i18n.js:19 | scanning a text whose only `{` starts the one occurrence of the placeholder gives the text before it, its expansion and the text after it |
| I18n.ReplaceFromOne | ai-health/shared/utils/i18n.js:19 | a placeholder between two brace-free texts is replaced by its expansion, the texts around it kept |
| I18n.DollarPatterns | ai-health/shared/utils/i18n.js:19 | concrete values: `$$`, `$&`, `` $` `` and `$'` give `$`, the placeholder, the text before and the text after, and `$1` stays as it is |
| I18n.SubstAll | ai-health/shared/utils/i18n.js:18-20 | the loop over the variables in order, each placeholder `{{k}}` replaced everywhere |
| I18n.Translate | ai-health/shared/utils/i18n.js:15-22 | the value of `t`: the entry in the language, else in the default language, else the key, then substituted |
| I18n.SubstPlain | ai-health/shared/utils/i18n.js:18-20 | substituting any variables into a brace-free text changes nothing |
| I18n.TranslateFallback | ai-health/shared/utils/i18n.js:15-17 | a language without a file falls back to the default language, and a key found in neither (with no `{`) is returned as itself |
| I18n.Catalogue.constructor | ai-health/shared/utils/i18n.js:4-5 | the catalogue starts with the given files, default language and an empty cache |
| I18n.Catalogue.Load | ai-health/shared/utils/i18n.js:6-13 | the dictionary is the file's contents or empty; it is cached under the language, and a cached language leaves the cache unchanged |
| I18n.Catalogue.T | ai-health/shared/utils/i18n.js:15-22 | the text is the translation with fallback and substitution (the `$` patterns of each value expanded as `replaceAll` does), the language is cached afterwards and at most the language and the default are added |
| LeadsUtils.NumberOfDigits | kelajack-leads-bot/src/utils.js:24 | `Number` of a string of ASCII digits is the decimal value of those digits |
| LeadsUtils.NumberOfNat | kelajack-leads-bot/src/utils.js:10-24 | `Number` of a natural number's decimal text is that number |
| LeadsUtils.CleanTextFacts | kelajack-leads-bot/src/utils.js:14-16 | the cleaned text has no white space at its ends and no run of white space; it is empty exactly when the input is all white space; cleaning twice equals cleaning once |
| LeadsUtils.ValidNameOfCleaned | kelajack-leads-bot/src/utils.js:18-21 | validating an already cleaned name gives the same verdict as the raw name, and a valid name is not blank |
| LeadsUtils.CleanText | kelajack-leads-bot/src/utils.js:14-16 | `cleanText`; properties in `LeadsUtils.CleanTextFacts` |
| LeadsUtils.IsValidName | kelajack-leads-bot/src/utils.js:18-21 | `isValidName`: 3 to 80 characters after cleaning; properties in `LeadsUtils.ValidNameOfCleaned` |
| LeadsUtils.ParseAge | kelajack-leads-bot/src/utils.js:23-28 | an age is in 1..99 and is the floor of the finite number the trimmed text denotes |
| LeadsUtils.ParseAgeOfNat | kelajack-leads-bot/src/utils.js:23-28 | the text of a natural number `n` parses to `n` exactly when `1 <= n <= 99`, else to nothing |
| LeadsUtils.ParseAgeRejectsWord | kelajack-leads-bot/src/utils.js:24-25 | a word is not an age |
| LeadsUtils.ParseAgeRejectsNonFinite | kelajack-leads-bot/src/utils.js:24-26 | "Infinity" is rejected as not finite, and a missing text reads as 0 and is rejected |
| LeadsUtils.AdminIdsOf | kelajack-leads-bot/src/utils.js:8-11 | every id kept is positive, and there are at most as many ids as parts |
| LeadsUtils.ParseAdminIds | kelajack-leads-bot/src/utils.js:5-12 | every admin id read from the setting is positive |
| LeadsUtils.SplitOfJoin | kelajack-leads-bot/src/utils.js:6-7 | splitting a comma-joined list of comma-free parts gives the parts back |
| LeadsUtils.AdminIdsOfNats | kelajack-leads-bot/src/utils.js:8-11 | the decimal texts of positive ids parse back to exactly those ids, in order |
| LeadsUtils.ParseAdminIdsRoundTrip | kelajack-leads-bot/src/utils.js:5-12 | a comma-joined list of positive ids parses back to exactly those ids, in order |
| LeadsUtils.Filter | kelajack-leads-bot/src/utils.js:32-40 | removing the characters a test rejects never lengthens the text and leaves only accepted characters |
| LeadsUtils.FilterAppend | kelajack-leads-bot/src/utils.js:32-40 | filtering a concatenation is concatenating the filtered parts |
| LeadsUtils.FilterTwice | kelajack-leads-bot/src/utils.js:32-40 | filtering first by a weaker test and then by a stricter one is filtering by the stricter one |
| LeadsUtils.FilterAll | kelajack-leads-bot/src/utils.js:36-40 | a text whose characters all pass is unchanged |
| LeadsUtils.FilterTrim | kelajack-leads-bot/src/utils.js:31-32 | trimming before a filter that drops white space changes nothing |
| LeadsUtils.FilterNone | kelajack-leads-bot/src/utils.js:32-40 | a text with no accepted character filters to the empty text |
| LeadsUtils.NormalizePhoneFacts | kelajack-leads-bot/src/utils.js:30-45 | a number comes out exactly when the input holds 9 to 15 digits; it is those digits in order, prefixed by "+" exactly when the digits-and-plus of the input start with "+" |
| LeadsUtils.NormalFormFixed | kelajack-leads-bot/src/utils.js:30-45 | 9 to 15 digits, with or without a leading "+", come back unchanged |
| LeadsUtils.NormalizeGivesNormal | kelajack-leads-bot/src/utils.js:40-44 | every number returned is 9 to 15 digits with an optional leading "+" |
| LeadsUtils.NormalPhoneFixed | kelajack-leads-bot/src/utils.js:30-45 | a number in the normal form is returned unchanged |
| LeadsUtils.NormalizePhoneIdempotent | kelajack-leads-bot/src/utils.js:30-45 | normalising a normalised number gives it back |
| LeadsUtils.NormalizePhone | kelajack-leads-bot/src/utils.js:30-45 | `normalizePhone`; properties in `LeadsUtils.NormalizePhoneFacts` and the lemmas after it |
| LeadsI18n.TableLang | kelajack-leads-bot/src/i18n.js:100 | the table used is one of the three languages: the requested one, or "ru" |
| LeadsI18n.Tr | kelajack-leads-bot/src/i18n.js:99-103 | a text comes out exactly when the key is in the chosen language's table |
| LeadsI18n.SameKeys | kelajack-leads-bot/src/i18n.js:3-97 | the ru, uz and en tables have the same keys in the same order, with no key twice |
| LeadsI18n.TrFallback | kelajack-leads-bot/src/i18n.js:100-101 | an unknown language reads the "ru" table, and every "ru" key has a text in every language |
| LeadsI18n.FillExtraArgs | kelajack-leads-bot/src/i18n.js:102 | arguments beyond those a template uses do not change its text |
| LeadsI18n.TrText | kelajack-leads-bot/src/i18n.js:89-102 | a plain text entry is returned as it is, whatever the arguments |
| LeadsI18n.TrTemplate | kelajack-leads-bot/src/i18n.js:88-102 | a template entry is called with the argument |
| LeadsI18n.TrMissingArg | kelajack-leads-bot/src/i18n.js:99-103 | an unknown language uses "ru", and a missing argument prints as "undefined" |
| LeadsI18n.TrMissingKey | kelajack-leads-bot/src/i18n.js:101-102 | an unknown key gives no text |
| LeadsBot.PhoneOfNormal | kelajack-leads-bot/src/index.js:257-266 | a phone the last step accepts, from the contact or the text, is in the normal form |
| LeadsBot.IsAdminOfList | kelajack-leads-bot/src/index.js:40-43 | with the admin list read from a comma-joined list of positive ids, exactly those ids are admins; and any admin id is positive |
| LeadsBot.NewLeadOk | kelajack-leads-bot/src/index.js:268-276 | a lead made from a complete draft has a valid name, an age in 1..99, a district, a normalised phone and status "new" |
| LeadsBot.TextStep | kelajack-leads-bot/src/index.js:233-255 | an accepted text moves the draft to the next step and keeps its language; in step "lang" text moves nothing |
| LeadsBot.TextStepOk | kelajack-leads-bot/src/index.js:233-255 | an accepted name, age or district is stored in its field and nothing else changes, and a valid draft stays valid |
| LeadsBot.StoreLeadOk | kelajack-leads-bot/src/index.js:268-278 | storing a valid lead under the next id and deleting the draft keeps all stored leads valid with increasing ids |
| LeadsBot.Bot.constructor | kelajack-leads-bot/src/index.js:37 | the bot starts with no drafts, no leads and the first lead id 1 |
| LeadsBot.Bot.Start | kelajack-leads-bot/src/index.js:117-122 | `/start` sets the user's draft to step "lang", language "ru", empty payload; the leads are untouched |
| LeadsBot.Bot.PickLang | kelajack-leads-bot/src/index.js:175-184 | picking a language moves the draft to "child_name" with that language and keeps the payload |
| LeadsBot.Bot.PickDistrict | kelajack-leads-bot/src/index.js:187-214 | a district button acts only in step "district"; "other" changes nothing; otherwise the district is stored and the step moves to "phone" |
| LeadsBot.Bot.ReadText | kelajack-leads-bot/src/index.js:233-255 | in the name, age and district steps the draft becomes the text step's result when the text is accepted and stays as it was otherwise |
| LeadsBot.Bot.SubmitPhone | kelajack-leads-bot/src/index.js:257-278 | an unusable phone changes nothing; otherwise one lead with the next id, the draft's fields and the normalised phone is appended, the id counter moves on and the draft is deleted |
| LeadsBot.Bot.OnMessage | kelajack-leads-bot/src/index.js:217-296 | no sender changes nothing; a restart text resets the draft; a user without a draft changes nothing; otherwise the text or phone step applies |
| LeadsBot.CleanWord | kelajack-leads-bot/src/index.js:221 | a single word with no white space is read as itself |
| LeadsBot.WalkName | kelajack-leads-bot/src/index.js:233-238 | the name "Ali" is stored and the draft moves to step "age" |
| LeadsBot.WalkAge | kelajack-leads-bot/src/index.js:240-246 | the text "7" stores age 7 and moves the draft to step "district" |
| LeadsBot.WalkDistrict | kelajack-leads-bot/src/index.js:248-255 | a one-letter district is refused; "Chilonzor" is stored and the draft moves to step "phone" |
| LeadsBot.WalkPhone | kelajack-leads-bot/src/index.js:260-266 | a typed 12-digit number is accepted as it is |
| Safety.ExtractZone | mamacare/src/validators.js:5-8 | the zone is RED, AMBER, GREEN or UNKNOWN |
| Safety.LeadLenPrefix | mamacare/src/validators.js:6 | `^\s*` skips exactly the leading white space |
| Safety.ZoneOfTag | mamacare/src/validators.js:5-8 | a tag in any letter case after leading white space gives its zone in upper case |
| Safety.ZoneAtStart | mamacare/src/validators.js:5-8 | a tag in any letter case at the very start gives its zone in upper case |
| Safety.TagOfWord | mamacare/src/validators.js:6 | a bracketed word equal to a zone up to case is that zone's tag |
| Safety.TagsExclusive | mamacare/src/validators.js:6 | no text starts with two different zone tags, so the order of the alternatives does not matter |
| Safety.ZoneNeedsBracket | mamacare/src/validators.js:6-7 | a text whose first non-space character is not `[` has zone UNKNOWN |
| Safety.NoBracketNoTag | mamacare/src/validators.js:6 | a zone tag starts with `[` |
| Safety.Folded | mamacare/src/validators.js:3 | the unit is compared with its letters lower-cased, as `/i` does |
| Safety.NoDigitNoDosage | mamacare/src/validators.js:3-12 | a text without a digit never contains a dose, in particular the empty or missing text |
| Safety.UnitsFacts | mamacare/src/validators.js:3 | every unit is lower case, ends in a letter, and is "mg", "ml" or wholly Cyrillic |
| Safety.MatchWitness | mamacare/src/validators.js:3 | digits, an optional white space and a unit between two word boundaries make a match |
| Safety.NumberPart | mamacare/src/validators.js:3 | digits after a non-word character start a match at a word boundary |
| Safety.UnitPart | mamacare/src/validators.js:3 | a unit followed by a non-word character ends at a word boundary |
| Safety.DosageDetected | mamacare/src/validators.js:3-12 | a number, an optional space and any unit standing as its own word is a dose (for the Latin units also as written) |
| Safety.CyrillicUnitEnd | mamacare/src/validators.js:3 | as written, `\b` after a Cyrillic unit followed by no ASCII word character fails |
| Safety.AsWrittenMissesCyrillicUnits | mamacare/src/validators.js:3-12 | as written, a text without Latin letters in which no ASCII word character follows a Cyrillic letter never contains a dose |
| Safety.CyrillicUnitMissed | mamacare/src/validators.js:3 | as written "5 мг" is not a dose while "5 mg" is; under the intended reading "5 мг" is a dose |
| Safety.FallbackZone | mamacare/src/validators.js:14-15 | the fallback text is in zone AMBER |
| Safety.EnforceSafety | mamacare/src/validators.js:22-26 | with the corrected detector: the answer is the fallback or the text unchanged |
| Safety.EnforceSafetyAsWritten | mamacare/src/validators.js:22-26 | with the detector as written: the answer is the fallback or the text unchanged, and a present non-empty text without a dose (ASCII boundaries) passes |
| Safety.CyrillicDosePassesAsWritten | mamacare/src/validators.js:3-26 | as written "5 мг" passes the guard unchanged while "5 mg" is replaced; with the corrected detector "5 мг" is replaced too |
| Safety.ContainsDosageAsWritten | mamacare/src/validators.js:3-12 | `containsDosage` as written: a number, optional white space and a unit between `\b` boundaries over ASCII word characters |
| Safety.ContainsDosage | mamacare/src/validators.js:3-12 | `containsDosage` as evidently intended: the same pattern with Cyrillic letters counted as word characters |
| Safety.EnforceSafetyGuards | mamacare/src/validators.js:22-26 | a missing, empty or dosing text gives the fallback and any other text is kept, so the answer is either the dose-free text or in zone AMBER |
| Safety.DoseReplaced | mamacare/src/validators.js:3-25 | a text stating a dose with any unit is replaced by the fallback |
| FeedbackText.EscEach | feedback/index.js:119 | escaping character by character leaves no `<` or `>` |
| FeedbackText.ReplaceCharAppend | feedback/index.js:119 | replacing a character in a concatenation replaces it in each part |
| FeedbackText.ReplaceCharAbsent | feedback/index.js:119 | replacing a character that does not occur changes nothing |
| FeedbackText.ReplaceSingle | feedback/index.js:119 | on one character, a replacement gives the replacement text or the character |
| FeedbackText.EscOne | feedback/index.js:119 | the three chained replacements escape one character exactly once, `&` first so `&lt;` is not escaped again |
| FeedbackText.EscIsEach | feedback/index.js:119 | the chained `replace` calls are the same as escaping each character |
| FeedbackText.Esc | feedback/index.js:119 | `esc`; properties in `FeedbackText.EscIsEach` and `FeedbackText.EscRoundTrip` |
| FeedbackText.UnescapeAmp | feedback/index.js:119 | `&amp;` decodes to `&` |
| FeedbackText.UnescapeLt | feedback/index.js:119 | `&lt;` decodes to `<` |
| FeedbackText.UnescapeGt | feedback/index.js:119 | `&gt;` decodes to `>` |
| FeedbackText.UnescapeOne | feedback/index.js:119 | decoding an escaped character gives the character |
| FeedbackText.EscRoundTrip | feedback/index.js:119 | the escaped text has no `<` or `>`, and decoding it gives the original text back |
| FeedbackText.EachRoundTrip | feedback/index.js:119 | decoding the per-character escape gives the text back |
| FeedbackText.LabelKeys | feedback/index.js:48-59 | only the seven questions of the table have labels |
| FeedbackText.Friendly | feedback/index.js:120 | an absent or empty answer reads as the empty text |
| FeedbackText.LikedLabels | feedback/index.js:124 | unknown codes are dropped and every label kept is non-empty |
| FeedbackText.CellValue | feedback/index.js:126-136 | the eight fixed rows always have a value; the liked, quality-note and comment rows may be dropped; no kept value is empty |
| FeedbackText.RowsFromShape | feedback/index.js:125-136 | the number of rows is the number of fields shown, and no value is empty |
| FeedbackText.Lines | feedback/index.js:137 | one line per row |
| FeedbackText.RowsShape | feedback/index.js:122-137 | the client's name (or "Клиент") comes first; there are eight rows plus one for each non-blank liked list, quality note and comment; no value is empty |
| FeedbackText.AnswersToHtml | feedback/index.js:122-138 | `answersToHtml`: the rows' lines joined by line breaks; properties in `FeedbackText.RowsShape` and `FeedbackText.LinesEscaped` |
| FeedbackText.ShownHead | feedback/index.js:126-131 | the first six fields show four fixed rows plus the non-blank liked list and quality note |
| FeedbackText.ShownTail | feedback/index.js:132-136 | the last five fields show four fixed rows plus the non-blank comment |
| FeedbackText.LinesEscaped | feedback/index.js:137 | each line is the bold escaped heading and the escaped value, and the value decodes back exactly |
| FeedbackText.FindTme | feedback/index.js:144 | the first place at or after the start where `t.me/` followed by a word character matches, case-insensitively, or none at all |
| FeedbackText.WordRun | feedback/index.js:144 | the longest run of `[A-Za-z0-9_]` from a position |
| FeedbackText.NormalizeRawTarget | feedback/index.js:141-147 | a missing or empty target normalises to the empty text |
| FeedbackText.NoTmeWithoutDot | feedback/index.js:144 | a text without `.` holds no link |
| FeedbackText.AtNameFixed | feedback/index.js:141-147 | `@name` is left as it is |
| FeedbackText.NormalizeIdempotent | feedback/index.js:141-147 | normalising twice is normalising once |
| FeedbackText.TargetFormOf | feedback/index.js:151-163 | only an empty target is "no target" |
| FeedbackText.FindFirst | feedback/index.js:144 | the search stops at the first link |
| FeedbackText.LinkFound | feedback/index.js:144 | in `pre + "t.me/" + name + post` the link is found right after `pre` and its name is exactly `name` |
| FeedbackText.LinkGivesUsername | feedback/index.js:141-157 | a text holding a `t.me/` link normalises to `@name`, which has the username form |
| FeedbackText.UsernameForm | feedback/index.js:157 | `@` followed by five or more word characters has the username form |
| FeedbackText.RunOfName | feedback/index.js:144 | a name of word characters followed by a non-word character is the run that starts there |
| Feedback.QuestionsFacts | feedback/index.js:74-98 | "match" is question 5 and the only one with that key, and the quality score is the only 1–10 question |
| Feedback.AddMediaFacts | feedback/index.js:218-231 | a file is kept exactly in the media stage with fewer than five files; the list never exceeds five; a refused file changes nothing and only the media list ever changes |
| Feedback.MediaNextFacts | feedback/index.js:211-216 | in the media stage 'media_next' moves to the questions and asks the first; otherwise it changes nothing |
| Feedback.SplitOnTwo | feedback/index.js:250-267 | splitting on a character that occurs gives at least two parts |
| Feedback.ArgOfButton | feedback/index.js:250-267 | the part after the first `:` of `prefix:value` is `value` |
| Feedback.TaggedHasColon | feedback/index.js:249-266 | a button tagged `tag:` contains a colon |
| Feedback.IndexOf | feedback/index.js:252 | the first position of a value in the list |
| Feedback.ToggleFacts | feedback/index.js:249-256 | a toggle keeps the picks free of repeats and flips only the value's membership |
| Feedback.ToggleTwice | feedback/index.js:249-256 | toggling twice restores the picked set; an unpicked value leaves the very same list, a picked one moves to the end |
| Feedback.NoteWantedOfScore | feedback/index.js:262 | a score written in digits asks for the quality note exactly when it is at most 8 |
| Feedback.AnswerBranches | feedback/index.js:244-277 | the current question's type selects the button it takes: 'multi_done' moves on, a 'multi:' button toggles, a 'rate10:' button records the score and the note flag, a 'single:' button records the answer |
| Feedback.AnswerFacts | feedback/index.js:244-307 | the session stays valid with stage and media unchanged; the note is asked for exactly when the quality question gets a 'rate10:' score of at most 8, and then the step is at "match" awaiting the note |
| Feedback.ReadTextFacts | feedback/index.js:279-295 | text outside the questions, or when neither a note nor a text answer is awaited, changes nothing; an awaited note is stored trimmed and never asked for again |
| Feedback.QualityNoteSkipsMatch | feedback/index.js:259-307 | after a low quality score and its note, the handler as written asks question 6 and never asks "match"; the corrected handler asks "match" |
| Feedback.SubmitFacts | feedback/index.js:326-356 | only the question stage submits; a submission resets the session to the media stage with no answers, picks or media and keeps the display name |
| Feedback.CallbackFacts | feedback/index.js:211-277 | in the media stage any button but 'media_next' changes nothing; after a submission the session is fresh; the session stays valid |
| Feedback.Answer | feedback/index.js:244-277 | the button handler for the current question; properties in `Feedback.AnswerBranches` and `Feedback.AnswerFacts` |
| Feedback.ReadText | feedback/index.js:279-295 | the text handler as evidently intended; properties in `Feedback.ReadTextFacts` |
| Feedback.ReadTextAsWritten | feedback/index.js:284-288 | the text handler as written, whose note branch also advances the step; compared in `Feedback.QualityNoteSkipsMatch` |
| Feedback.Submit | feedback/index.js:326-356 | `handleSubmit`; properties in `Feedback.SubmitFacts` |
| Feedback.Callback | feedback/index.js:211-277 | a button press; properties in `Feedback.CallbackFacts` |
| Feedback.FullName | feedback/index.js:199-200 | the display name is never empty |
| Feedback.Chat.constructor | feedback/index.js:35-45 | a new chat starts in the media stage at step 0 with nothing recorded |
| Feedback.Chat.Start | feedback/index.js:198-208 | `/start` gives a fresh session under the user's name |
| Feedback.Chat.AskQuestion | feedback/index.js:298-323 | before "match" with a note pending the note is asked and awaited; past the last question the submit prompt is shown; otherwise the current question is asked |
| Feedback.Chat.OnMedia | feedback/index.js:218-231 | the session becomes what `AddMedia` gives and stays valid |
| Feedback.Chat.HandleSubmit | feedback/index.js:326-356 | the session and the submission are what `Submit` gives |
| Feedback.Chat.RecordAndAsk | feedback/index.js:261-273 | the answer (if any) is recorded, the note flag set, the step advanced, and the next question asked |
| Feedback.Chat.AnswerButton | feedback/index.js:244-277 | the session and the prompt are what `Answer` gives |
| Feedback.Chat.OnCallback | feedback/index.js:211-277 | the session and the reply are what `Callback` gives, and the session stays valid |
| Feedback.Chat.OnText | feedback/index.js:279-295 | the session and the prompt are what the corrected `ReadText` gives, and the session stays valid |
| Mbi.SumByAppend | mbi-bot/src/index.js:311 | the sum over two lists of questions together is the sum of the two sums |
| Mbi.Range | mbi-bot/src/index.js:295 | the indices of all questions, in order |
| Mbi.ScalesPartition | mbi-bot/src/index.js:99-103 | the three scales share no question and together cover exactly the 22 questions |
| Mbi.ScoresTotal | mbi-bot/src/index.js:310-314 | the three scale sums add up to the sum of all answers |
| Mbi.SumByBound | mbi-bot/src/index.js:311 | with answers of at most 6, a sum is at most 6 per question |
| Mbi.ScoresBounded | mbi-bot/src/index.js:310-314 | with every answer one of the offered values, each scale sum is at most its stated maximum, and each maximum is 6 per question of the scale |
| Mbi.Nulls | mbi-bot/src/index.js:295 | a new flow has one empty answer per question |
| Mbi.Store | mbi-bot/src/index.js:525 | the answer is stored at its question, the other answers are kept, and storing past the end grows the array |
| Mbi.AnswerFacts | mbi-bot/src/index.js:514-556 | a missing flow is started; a button for another question changes nothing else; an accepted one stores the value and moves to the next question; after the last question one record with the answers and their scores is appended and the flow ends |
| Mbi.WizardSteps | mbi-bot/src/index.js:371-396 | the wizard stores the trimmed first name, last name and position in that order and then saves them; the profile is complete exactly when none is blank; a test waiting for the profile starts afterwards |
| Mbi.ProfileInputFacts | mbi-bot/src/index.js:371-396 | text is taken exactly while the wizard runs, text outside it changes nothing, and the results are untouched |
| Mbi.EnsureProfileFacts | mbi-bot/src/index.js:362-370 | the caller goes on exactly when the profile is complete and then nothing changes; otherwise the wizard starts and remembers whether to start the test |
| Mbi.Chat.constructor | mbi-bot/src/index.js:274 | a new chat has no flow, no wizard, no profile and no results |
| Mbi.Chat.MbiInit | mbi-bot/src/index.js:288-297 | the flow restarts at the first question with all answers empty |
| Mbi.Chat.OnAnswer | mbi-bot/src/index.js:514-556 | the chat and the reply are what `Answer` gives, and the chat stays valid |
| Mbi.Chat.StartMbi | mbi-bot/src/index.js:470-476 | the test starts at the first question exactly when the profile is complete; otherwise the wizard starts and will start the test |
| Mbi.Chat.OnStart | mbi-bot/src/index.js:454-458 | `/start` shows the menu exactly when the profile is complete, else starts the wizard |
| Mbi.Chat.Restart | mbi-bot/src/index.js:496 | the handler of the restart pattern: the flow is dropped and nothing else changes; it is reached only under the corrected routing (see `Mbi.RestartUnreachable`) |
| Mbi.Chat.StartProfileWizard | mbi-bot/src/index.js:356-361 | the wizard restarts at the first name and nothing else changes |
| Mbi.Chat.OnProfileText | mbi-bot/src/index.js:371-396 | the chat and the verdict are what `ProfileInput` gives, and the chat stays valid |
| Mbi.Hears | mbi-bot/src/index.js:454-511 | the handler a text reaches in registration order: `/start`, then the start-the-test, results, export, Excel, restart, language and profile patterns |
| Mbi.HearsIntended | mbi-bot/src/index.js:462-511 | the same routing with the restart pattern tried before the start-the-test pattern |
| Mbi.RestartUnreachable | mbi-bot/src/index.js:462-496 | every text the restart pattern matches also matches the start-the-test pattern, so as written no text reaches the restart handler |
| Mbi.IntendedDiffersOnRestart | mbi-bot/src/index.js:462-496 | the two routings agree except on texts matching both patterns, which the corrected routing sends to the restart handler |
| Mbi.RestartButtonRu | mbi-bot/src/index.js:466-470 | the Russian restart button text starts a new test as written, and reaches the restart handler when corrected |
| Mbi.RestartButtonUz | mbi-bot/src/index.js:466-470 | the Uzbek restart button text likewise |
| Mbi.CommandNotWizardInput | mbi-bot/src/index.js:470-476 | while the wizard asks for a first name, the text 'Начать' is taken as the start-the-test command and not as a name: the wizard stays at its first step and the test is to follow |
| Mbi.Chat.OnText | mbi-bot/src/index.js:454-562 | a text message reaches the handler the corrected routing picks, and the chat becomes that handler's result and stays valid |
| Mbi.ComputeScores | mbi-bot/src/index.js:310-314 | the three scale sums of the answers; bounds and partition in `Mbi.ScoresTotal` and `Mbi.ScoresBounded` |
| Mbi.Answer | mbi-bot/src/index.js:514-556 | the `mbi:<q>:<v>` handler; its properties are `Mbi.AnswerFacts` |
| Mbi.EnsureProfile | mbi-bot/src/index.js:362-370 | `ensureProfile`; its properties are `Mbi.EnsureProfileFacts` |
| Mbi.ProfileInput | mbi-bot/src/index.js:371-396 | `handleProfileInput`; its properties are `Mbi.ProfileInputFacts` and `Mbi.WizardSteps` |
| OrgChart.AnyContainsIff | akfa-orgchart/src/App.jsx:30 | `some` over the items holds exactly when one lower-cased item contains the query |
| OrgChart.AnyGroupContainsIff | akfa-orgchart/src/App.jsx:31 | `some` over the groups holds exactly when a lower-cased group title or group item contains the query |
| OrgChart.EmptyContainsNothing | akfa-orgchart/src/App.jsx:24-28 | a missing field reads as the empty text, which contains no non-empty query |
| OrgChart.MatchQIff | akfa-orgchart/src/App.jsx:25-33 | an empty query matches everything; otherwise a block matches exactly when its title, owner, an item, a group title or a group item contains the query, ignoring case |
| OrgChart.LowerSuffix | akfa-orgchart/src/App.jsx:24 | lower-casing keeps the length and commutes with taking a suffix |
| OrgChart.LowerStartsWith | akfa-orgchart/src/App.jsx:24 | lower-casing keeps a prefix a prefix |
| OrgChart.ContainsLower | akfa-orgchart/src/App.jsx:24-28 | lower-casing keeps a substring a substring |
| OrgChart.ContainsTrans | akfa-orgchart/src/App.jsx:28-31 | a substring of a substring is a substring |
| OrgChart.MatchNarrower | akfa-orgchart/src/App.jsx:25-33 | a block that matches a query also matches every part of it, so typing more only hides blocks |
| OrgChart.MatchQ | akfa-orgchart/src/App.jsx:25-33 | `matchQ`; properties in `OrgChart.MatchQIff` and `OrgChart.MatchNarrower` |
| OrgChart.Pick | akfa-orgchart/src/App.jsx:42-43 | one node per block, in order, with the block's fields; a missing list gives none |
| OrgChart.SpineOwnerReportsToCeo | akfa-orgchart/src/App.jsx:37-44 | the head comes first as "ceo" with no manager; the spine owner comes second and reports to its own manager or, without one, to "ceo" |
| OrgChart.Nodes | akfa-orgchart/src/App.jsx:37-44 | the nodes of the index; properties in `OrgChart.SpineOwnerReportsToCeo` and `OrgChart.Pick` |
| OrgChart.BuildChildren | akfa-orgchart/src/App.jsx:46-50 | the map has an entry exactly for each id some node reports to, holding the ids that report to it in node order |
| OrgChart.ChildrenMembers | akfa-orgchart/src/App.jsx:48 | an id is listed under a manager exactly when some node with that id reports to it |
| OrgChart.ChildrenNoRepeats | akfa-orgchart/src/App.jsx:48 | with distinct node ids, no child is listed twice |
| OrgChart.ChildrenExactlyOnce | akfa-orgchart/src/App.jsx:46-50 | with distinct node ids, a node is listed under its own manager only, once |
| OrgChart.ChildrenOf | akfa-orgchart/src/App.jsx:46-50 | the ids reporting to one manager, in node order; properties in `OrgChart.ChildrenMembers` and `OrgChart.ChildrenNoRepeats` |
| OrgChart.DictFacts | akfa-orgchart/src/App.jsx:45 | with distinct node ids, the dictionary has exactly the node ids as keys and maps each to its node |
| OrgChart.NamePrecedence | akfa-orgchart/src/App.jsx:59-64 | the name is the first non-empty of the override in the language, the fallback in the language and the fallback in "ru", else empty |
| OrgChart.NameFromAny | akfa-orgchart/src/App.jsx:59-64 | `getNameFromAny`; properties in `OrgChart.NamePrecedence` |
| OrgChart.ResolveOwnerFacts | akfa-orgchart/src/App.jsx:70-74 | the owner key, when there is one, replaces the block id; a non-empty override wins; with neither an override nor a table entry the chart's owner is shown |
| OrgChart.ResolveOwner | akfa-orgchart/src/App.jsx:70-74 | `resolveOwner`; properties in `OrgChart.ResolveOwnerFacts` |
| OrgChart.ToggleFacts | akfa-orgchart/src/App.jsx:348 | a toggle flips only that block's flag (a missing flag reads as closed); toggling twice restores the map, apart from recording a missing flag as closed |
| OrgChart.Ids | akfa-orgchart/src/App.jsx:340-346 | the ids of the blocks, in order |
| OrgChart.ExpandAll | akfa-orgchart/src/App.jsx:349 | exactly the listed blocks are open |
| OrgChart.CollapseAll | akfa-orgchart/src/App.jsx:350 | no block is recorded as open |
| OrgChart.ExpandCollapse | akfa-orgchart/src/App.jsx:348-350 | after expanding all, a toggle closes a block; after collapsing all, a toggle opens only that block |
| OrgChart.OpenForQueryFacts | akfa-orgchart/src/App.jsx:352-361 | with a query, each searchable block is open exactly when it matches, and every other flag is kept |
| OrgChart.OpenForQuery | akfa-orgchart/src/App.jsx:352-361 | the search effect on the open flags; properties in `OrgChart.OpenForQueryFacts` |
| OrgChart.RoleLabelFor | akfa-orgchart/src/App.jsx:369-370 | the role label is empty exactly for "nursing-head" and "residency" |
| AdminPanel.Take | akfa-orgchart/src/admin/AdminPanel.jsx:14 | one entry per block, in order, with the block's id |
| AdminPanel.EntryIds | akfa-orgchart/src/admin/AdminPanel.jsx:9-22 | the ids of the panel's entries, in order |
| AdminPanel.NodeIds | akfa-orgchart/src/App.jsx:37-44 | the ids of the chart's nodes, in order |
| AdminPanel.EntryIdsAppend | akfa-orgchart/src/admin/AdminPanel.jsx:15-21 | the ids of concatenated entry lists are the concatenated ids |
| AdminPanel.NodeIdsAppend | akfa-orgchart/src/App.jsx:43 | the ids of concatenated node lists are the concatenated ids |
| AdminPanel.MakeNodesListFacts | akfa-orgchart/src/admin/AdminPanel.jsx:9-22 | the panel lists the same ids in the same order as the chart's node index, starting with ("ceo", admin) and (spine owner, clinic) |
| AdminPanel.TakeDefaultsToAdmin | akfa-orgchart/src/admin/AdminPanel.jsx:14 | every block is listed with its type, or as 'admin' without one |
| AdminPanel.FilterMatchingFacts | akfa-orgchart/src/admin/AdminPanel.jsx:36-42 | the filter keeps exactly the matching entries and never lengthens the list |
| AdminPanel.SearchFacts | akfa-orgchart/src/admin/AdminPanel.jsx:33-43 | an empty query lists every node; any other lists exactly the nodes whose title or name (from the tables or the overrides) contains it, ignoring case |
| AdminPanel.FilterMatching | akfa-orgchart/src/admin/AdminPanel.jsx:36-42 | the entries matching the query, in order; properties in `AdminPanel.FilterMatchingFacts` |
| AdminPanel.Search | akfa-orgchart/src/admin/AdminPanel.jsx:33-43 | the panel's list; properties in `AdminPanel.SearchFacts` |
| AdminPanel.SetCellFacts | akfa-orgchart/src/admin/AdminPanel.jsx:55-69 | the copy-on-write update sets that one cell and changes no other |
| AdminPanel.SetThenGet | akfa-orgchart/src/admin/AdminPanel.jsx:45-74 | after `setTitle` (or `setName`) the panel shows the new value, even an empty one, for that id and language; every other title and name is unchanged |
| AdminPanel.GetPrecedence | akfa-orgchart/src/admin/AdminPanel.jsx:45-51 | without an override the table's value shows; an override, even an empty one, hides it; with neither the value is empty |
| AdminPanel.Get | akfa-orgchart/src/admin/AdminPanel.jsx:45-51 | `getTitle`/`getName`; properties in `AdminPanel.GetPrecedence` and `AdminPanel.SetThenGet` |
| AdminPanel.SetCell | akfa-orgchart/src/admin/AdminPanel.jsx:55-69 | the copy-on-write cell update; properties in `AdminPanel.SetCellFacts` |
| AdminPanel.ResetShowsTables | akfa-orgchart/src/admin/AdminPanel.jsx:103-106 | after a reset every title and name is the table's again |
| AdminPanel.ImportFacts | akfa-orgchart/src/admin/AdminPanel.jsx:85-101 | a file that does not parse, or parses to `null`, changes nothing; a missing table imports as empty; importing the current overrides changes nothing; any other non-object value resets them |
| AdminPanel.ImportJson | akfa-orgchart/src/admin/AdminPanel.jsx:85-101 | `importJson`; properties in `AdminPanel.ImportFacts` |

## Left out

- Telegram I/O: replies, keyboards, message edits, callback answers and media uploads are not modelled. Handlers are modelled by the state they change and the prompt or reply they choose.
- Storage: lowdb and `fs` reads and writes, the SQLite layer of kelajack-leads-bot, `localStorage` and the JSON round trip of each store are not modelled. Each store is an in-memory value (a sequence, a map, or a map of file names to parsed contents).
- Clocks and ids: `Date.now`, `new Date`, day arithmetic, `nanoid`, `uuid` and the time part of `nextTaskId` are parameters. Dates are integers ordered like their `YYYY-MM-DD` texts, and fresh ids come from a counter.
- Scheduling: `node-cron` and the jobs that call `timeToCron` are not modelled; only the cron text is.
- Concurrency: the bots rely on one event loop doing one read-modify-write at a time, and the model is sequential in the same way.
- Floating point: MBI percentages (`Math.round(sum / max * 100)`) are not modelled; only the integer sums are.
- LeadsUtils.ParseAge: `Number` is modelled on exact reals, so rounding of very long decimal texts is not captured.
- LeadsUtils.AdminIdsOf: a text whose value is beyond the largest double, such as "1e400", is `Infinity` in JavaScript and dropped by `Number.isFinite`; the model reads it as a finite real and keeps it as an admin id. (`LeadsUtils.ParseAge` rejects such a text either way, since it is above 99.)
- BotCommon.ParseIntOr0: a `0x` prefix is read as the decimal 0, whereas `parseInt` with no radix reads it as hexadecimal; the cron times this feeds never use one.
- SessionStore: `MaxMsgs` (18) and `TtlHours` (48) are the defaults; the `SESSION_MAX_MSGS` and `SESSION_TTL_HOURS` environment overrides (ai-health/shared/memory/store.js:6-7) are not modelled.
- SessionStore.Store.IsExpired: `hours(now - updatedAt) > 48` is compared exactly in milliseconds; floating-point division is not modelled.
- SessionStore.Store.ShouldSummarize: the contract states only that a user with no session is never due; the threshold test itself is the function's definition.
- SplitMessage.Split: `max` must be at least 1. With `max` 0 the JavaScript loop never ends, so such a call is not modelled.
- Text: lower-casing covers ASCII and the basic Cyrillic block only. White space is a fixed set of the common characters JavaScript's `\s` and `trim` accept. Lengths count code points, not UTF-16 units.
- Inherited object properties (`__proto__`, `toString`) used as keys of JavaScript objects are not modelled; maps hold only own keys.
- intl-dept-rolebot rollover: JavaScript orders integer-like object keys numerically when it lists the per-user result. The model lists users in the order they first appear.
- IntlLedger.Store.ListTasksForAssignee: every stored task has a `createdAt`, so the `|| ""` fallback for a missing one is not modelled.
- Suply and intl `timeToCron`: a time with no `:` gives the minute `undefined`, as the code does, rather than 0.
- feedback: the question texts, the keyboards and the network calls of `resolveTargetChatId` (`getChat`, the channel-type check) are not modelled; only which target forms are accepted without asking Telegram is modelled. The `waitingText` flag is set but never read, and is left out.
- feedback: `bot.action('submit')` is registered after the general `callback_query` handler, which already handles 'submit', so it is never reached and is not modelled separately.
- Feedback.Chat.HandleSubmit: the HTML report is computed by `Report`, but the method contract keeps to the session and the submission record. Sending the report and the media album is I/O.
- mbi-bot: the question and interpretation texts, `exportToExcel`, "my results" and the language switch are not modelled. Commands are recognised by their text, not by Telegram's command entities; `^start$` is read as the whole text being "start".
- mbi-bot: the user and time details of a stored result are not modelled; a record holds the answers and the scores.
- kelajack-leads-bot: `/admin`, the statistics, `lead:done`, `buildLeadsXlsx` and `fmtLeadCard` are not modelled. The lead's `created_at` is a parameter.
- mamacare: `containsDosage` and `enforceSafety` are modelled as written by `Safety.ContainsDosageAsWritten` and `Safety.EnforceSafetyAsWritten`, with `\b` made explicit; the rest of the model uses the corrected detector (see Findings). The LLM calls around them are not modelled.
- akfa-orgchart: `names.i18n.js` is not part of this model; its table is a parameter. `App.jsx` reads it as `NAMES_I18N[key][lang]` while `AdminPanel.jsx` reads it as `NAMES_I18N[lang][id]`, and the model keeps both readings.
- akfa-orgchart: `App.jsx` keeps name overrides under `org_names_overrides_v1`, whereas the admin panel's `overrides.js` saves under its own key. The two are separate parameters in the model.
- akfa-orgchart: React rendering, the SVG connector geometry, `exportJson`, and `overrides.js` load/save/clear are not modelled.
- AdminPanel.ImportFacts: imported `titles` and `names` values are taken to be `id → lang → text` objects; other JSON shapes inside them are not modelled.
- ai-health: the locale cache is never invalidated. The model keeps this: a cached language keeps its first contents.
- ai-health: `src/index.js` and the LLM engine are not modelled.

## Findings

| source | as written | input that shows it | evidently intended | confidence | as-written member | corrected member |
|---|---|---|---|---|---|---|
| mamacare/src/validators.js:3 | the dosage pattern ends in `\b`, which in a JavaScript regular expression without the `u` flag is a boundary between ASCII word characters and anything else; a Cyrillic unit ends in a non-word character, so no boundary follows it at the end of the text or before a space | "5 мг" | a dose written with a Cyrillic unit (мг, мл, капли, таблетки, дозы) is detected like "5 mg" | not executed | Safety.AsWrittenMissesCyrillicUnits, Safety.CyrillicUnitMissed | Safety.DosageDetected, Safety.DoseReplaced |
| feedback/index.js:287 | after the quality note is read, the handler advances the step, but the step already points at 'match' because the note is asked in its place | a quality score of 8 or less, then any note text | the 'match' question is asked after the note | not executed | Feedback.QualityNoteSkipsMatch | Feedback.ReadTextFacts |
| mbi-bot/src/index.js:462 | the start-the-test pattern contains `Начать` and `boshlash` and is registered before the restart pattern, so the restart buttons 'Начать заново' and 'Qayta boshlash' start a new test instead | 'Начать заново' | the restart buttons reach the restart handler, which drops the flow and shows the menu | not executed | Mbi.RestartUnreachable, Mbi.RestartButtonRu | Mbi.IntendedDiffersOnRestart, Mbi.Chat.OnText |
