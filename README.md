# ExpenseC ledger core in Dafny

ExpenseC is a small group-expense tracker. Participants of an *event* (a
trip, a dinner) enter what they paid. The server keeps users, events and
expense rows in three SQLite tables. It computes each event's total and
per-head figure and, when the event is archived, freezes those figures
together with a list of suggested transfers ("B pays C 40.00"). The browser
shows the same figures, recomputes the transfers on its own, and keeps a
local-storage cache and an in-memory store of user profiles.

This project models that core:

- `Settlements` (settlements.dfy): the greedy debt-netting engine in both of
  its variants. `Rule.Client` is the copy in `src/utils/settlements.js`, and
  the identical one in `src/components/UserDashboard.js`. `Rule.Archive` is
  the copy inlined in the archive route. The engine is specified by a
  two-pointer `Sweep` function. `Pair` is the imperative loop, proved equal
  to it.
- `Database` (database.dfy): the class `Db`, whose three tables are maps
  from row id to record and whose AUTOINCREMENT counters are fields. Its
  `Valid()` invariant says ids lie below the counters, every expense row
  belongs to an existing event, and at most one event is active.
- `Events`, `Expenses`, `Users` (events.dfy, expenses.dfy, users.dfy): the
  server routes, as methods that update a `Db` and return either the JSON
  answer or an HTTP status with its message. The read-only routes are
  functions of the tables.
- `Money` (money.dfy): totals with a missing amount counted as 0, the
  per-head figure, and `toFixed(2)` as rounding to whole cents.
- `DateUtils` (date_utils.dfy): `parseFromEng`, `uiDate`, and the part of
  `formatToEng` that does not depend on `Date`.
- `Analytics` (analytics.dfy): the date filter of the analytics route, the
  largest/smallest event highlight, and the summary defaults.
- `Dashboard` (dashboard.dfy): the participant dashboard as a class over
  its `state` object. It covers the statistics card, `recalcStats`,
  `loadData` and the personal summary.
- `Cache` (cache.dfy): the TTL cache as a class whose field is the whole of
  local storage.
- `UserStore` (user_store.dfy): the profile map and its merge
  (`populateFromExpenses`).
- `Base` and `Seqs` (base.dfy, seqs.dfy): shared helpers. They provide
  `Option` for null, decimal spelling, text order, and `filter` and a
  stable `sort` with their lemmas.

Money is an exact `real`, and `Round2` stands in for `Number(x.toFixed(2))`.
Clocks are `now` parameters. Rows that SQL returns without an `ORDER BY`
are taken in id order.

## Model

| member | source | states |
|---|---|---|
| Money.Round2 | api/routes/events.js:232 | the result is a whole number of cents within half a cent of the input; a half cent goes up for non-negative inputs and down for negative ones, as `toFixed` rounds the magnitude |
| Money.TiesAwayFromZero | api/routes/events.js:232 | -0.125 becomes -0.13 and 0.125 becomes 0.13 |
| Money.Round2Monotone | api/routes/events.js:208 | rounding to cents preserves order |
| Money.EnteredSumIsTotal | api/routes/expenses.js:43-44 | summing only the entered amounts gives the same total as counting a missing amount as 0 |
| Money.TotalAppend | api/routes/events.js:186 | the null-as-zero total is additive over concatenated rows |
| Money.NullCountsAsZero | src/utils/settlements.js:11 | replacing a missing amount by an entered 0 leaves the total unchanged |
| Money.PerHead | api/routes/expenses.js:46 | 0 without rows; otherwise within half a cent of total divided by the row count; always a whole number of cents |
| Money.StatsOf | api/routes/expenses.js:43-46 | the head count is all rows (unset ones included), the total is the sum of the entered amounts, and the per-head is 0 without rows and otherwise a whole number of cents within half a cent of total over head count |
| Money.PerHeadDividesByAllRows | api/routes/expenses.js:45-46 | 10, 20 and an unset amount give total 30, three heads, per-head 10 |
| Settlements.SweepShape | src/utils/settlements.js:24-41 | the sweep records at most one move per debtor-or-creditor step; every move is between positions the pointers have not passed and exceeds 0.01 |
| Settlements.CalculateSettlements | src/utils/settlements.js:6-44 | the method returns exactly the transfers of the specification `Settle`: sorted debtors paired with sorted creditors by the two-pointer sweep |
| Settlements.Pair | src/utils/settlements.js:17-43 | the imperative loop over the copied balance lists records exactly the sweep's moves, in order, as transfers |
| Settlements.DebtorsOwe | src/utils/settlements.js:14-15 | every debtor is an input balance below -0.01 and every creditor one above +0.01 |
| Settlements.ComparatorsArePreorders | src/utils/settlements.js:14-15 | both sort comparators are total preorders, so the sorts are well defined |
| Settlements.DebtorsSorted | src/utils/settlements.js:14-15 | debtors come most-negative first and creditors most-positive first, each list a permutation of the balances it selects |
| Settlements.TransferEndpoints | src/utils/settlements.js:7-15 | every transfer goes from a row that paid more than 0.01 under the per-head to a row that paid more than 0.01 over it |
| Settlements.SettledNeverAppear | src/utils/settlements.js:14-15 | a participant whose rows are all within 0.01 of the per-head appears in no transfer |
| Settlements.NothingToNet | src/utils/settlements.js:14-24 | with nobody owing, or nobody owed, more than 0.01 there are no transfers |
| Settlements.NoTransfersWhenSettled | src/utils/settlements.js:6-44 | no rows, one row, or everyone paying exactly the per-head gives no transfers |
| Settlements.SweepBounded | src/utils/settlements.js:27-38 | along the sweep no debtor pays more than it owes and no creditor receives more than it is owed |
| Settlements.SettleBounded | src/utils/settlements.js:6-44 | for a whole settlement each debtor pays at most its debt and each creditor receives at most its credit |
| Settlements.RecordedAmounts | api/routes/events.js:204-211 | every move exceeds 0.01; the client copy records it exactly, the archive copy rounded to cents, so at least 0.01 and within half a cent |
| Settlements.RecordedAtLeastACent | api/routes/events.js:204-208 | an amount above 0.01 rounded to cents is at least 0.01 |
| Settlements.WorkedExample | src/utils/settlements.js:6-44 | paid 30, 0 and 90 against a per-head of 40 gives B pays C 40, then A pays C 10, under both copies |
| Settlements.RulesDiverge | api/routes/events.js:211-213 | the archive copy (moves on at a remainder of at most 0.01) and the client copy (strictly below 0.01) plan different transfers on the same balances |
| DateUtils.SplitJoin | src/utils/dateUtils.js:27 | `split('-')` gives hyphen-free pieces, one more than the hyphens, which join back to the input |
| DateUtils.JoinSplit | src/utils/dateUtils.js:27 | joining hyphen-free pieces and splitting again gives the pieces back |
| DateUtils.MonthIndex | src/utils/dateUtils.js:34 | -1 exactly for strings that are not month abbreviations; otherwise the position of the month |
| DateUtils.PadStart2 | src/utils/dateUtils.js:37 | a short string is left-padded with zeros to length 2; a longer one is unchanged |
| DateUtils.MonthNumber | src/utils/dateUtils.js:37 | the month number is the 1-based month as exactly two decimal digits, zero-padded |
| DateUtils.NotThreePartsUnchanged | src/utils/dateUtils.js:27-28 | a string without exactly two hyphens comes back unchanged |
| DateUtils.EngToIso | src/utils/dateUtils.js:25-39 | `DD-Mon-YYYY` with a known month becomes `YYYY-MM-DD` with the month's two-digit number |
| DateUtils.UnknownMonthUnchanged | src/utils/dateUtils.js:34-35 | three parts around a middle that is no month name come back unchanged |
| DateUtils.ParseFromEngIdempotent | src/utils/dateUtils.js:25-39 | converting twice equals converting once, so an ISO date passes through |
| DateUtils.ParseExample | src/utils/dateUtils.js:25-39 | "05-Mar-2024" becomes "2024-03-05" |
| DateUtils.IsoExample | src/utils/dateUtils.js:25-39 | "2024-03-05" is left as it is |
| DateUtils.FormatToEng | src/utils/dateUtils.js:8-9 | the empty string, and only it, is shown as the empty string |
| DateUtils.UiDate | src/utils/dateUtils.js:46-51 | empty stays empty, an English-form date is shown as is, and anything else goes through formatToEng |
| DateUtils.UiDateKeepsEnglish | src/utils/dateUtils.js:49 | every two-digit day, month abbreviation and four-digit year is shown unchanged |
| Database.NewEvent | api/database/db.js:22-58 | a newly inserted event is active, with no snapshot and no Gandu |
| Database.KeysSpec | api/database/db.js:22-58 | a `SELECT ... WHERE` sees exactly the qualifying ids, in increasing order |
| Database.Select | api/database/db.js:22-58 | the selected rows are the table's records at the qualifying ids, in id order |
| Database.ActiveEvent | api/routes/expenses.js:10 | the result is the highest active event id; None exactly when no event is active |
| Database.FindRow | api/routes/expenses.js:72-76 | the first (lowest-id) row of that user in that event; None exactly when there is none |
| Database.Db.constructor | api/database/db.js:22-58 | empty tables with every counter at 1 satisfy the invariant |
| Database.ActiveEventUnique | api/routes/events.js:168 | with at most one active event, `LIMIT 1` with and without `ORDER BY id DESC` finds the same event |
| Events.Deactivated | api/routes/events.js:63 | afterwards no event is active; the previously active ones get the archive time; nothing else changes |
| Events.DefaultParticipants | api/routes/events.js:72-76 | without a participant list the participants are exactly the active users, each once |
| Events.NullRowsSpec | api/routes/events.js:79-82 | participant i gets the row with id `first + i`, amount NULL, and no other ids are written |
| Events.StartWellFormed | api/routes/events.js:54-92 | starting keeps the tables well formed |
| Events.StartLeavesOneActive | api/routes/events.js:63-69 | after starting, the new event is the only active one and the one `/current` finds |
| Events.StartRows | api/routes/events.js:79-86 | the new event's rows are one NULL row per participant, in participant order |
| Events.StartEvent | api/routes/events.js:54-92 | a falsy name or date gives 400 "Name and Date Range are required." and no change; otherwise all events are deactivated, the new event is inserted with ISO dates, one NULL row per participant is added, and the new id is returned |
| Events.InsertNullRows | api/routes/events.js:79-86 | the batch of inserts adds exactly those NULL rows and advances the counter by their number |
| Events.Target | api/routes/events.js:160-172 | a truthy id selects that event if it exists, otherwise none; without an id the active event is selected |
| Events.SnapshotFigures | api/routes/events.js:186-188 | the snapshot stores the null-as-zero total, the per-head to two places (0 without rows), the row count and the archive-rule transfers; it keeps name, dates and Gandu |
| Events.SnapshotTransfers | api/routes/events.js:191-218 | each frozen transfer runs from a row owing more than 0.01 to one owed more than 0.01, against the unrounded per-head, and is at least 0.01 |
| Events.ArchiveEvent | api/routes/events.js:155-239 | no target gives 404 "Event not found" and no change; otherwise only the target changes, to its snapshot over its user-joined rows |
| Events.WithoutEvent | api/routes/events.js:245 | exactly the rows of other events remain, with their records |
| Events.DeleteRows | api/routes/events.js:245-246 | the deleted event has no rows left, and every other event keeps exactly its rows |
| Events.DeleteEvent | api/routes/events.js:242-251 | the event and its rows are removed, nothing else changes, and the answer is a success |
| Events.HistoryOf | api/routes/events.js:8-51 | the i-th entry is the i-th event in id order, built by `HistoryItemOf` from the event and all its rows |
| Events.HistoryCoversEvents | api/routes/events.js:11-20 | every event has exactly one entry, and the entries come in increasing id order |
| Events.HistoryItemFigures | api/routes/events.js:20-45 | an archived event with a snapshot shows its stored total, per-head, count and settlements; any other shows the live sum of entered amounts, the row count, the per-head to cents and no settlements; both with dates through formatToEng |
| Events.ArchiveFreezesLiveFigures | api/routes/events.js:20-45 | archiving freezes the total, per-person and count that history showed live, and later row changes no longer show |
| Expenses.RowsView | api/routes/expenses.js:35-40 | each listed row carries its user id, the user's name, the amount and the update time |
| Expenses.CurrentOf | api/routes/expenses.js:7-61 | the no-event answer, with the message "No active event found.", exactly when no event is active; otherwise the answer is for the highest active event |
| Expenses.CurrentMatchesArchive | api/routes/expenses.js:22-46 | `/current` lists exactly the active event's rows whose user exists, in row order, each with user id, the user's name, amount and update time; its figures are the statistics of those rows and equal the figures archiving would freeze |
| Expenses.GanduRule | api/routes/expenses.js:93-111 | a recorded Gandu is never overwritten; one is named exactly when none was recorded and a single row is unset, and it is that row's user |
| Expenses.RowsOfOtherEvent | api/routes/expenses.js:82-85 | changing or adding a row of one event leaves every other event's rows unchanged |
| Expenses.Update | api/routes/expenses.js:64-126 | no active event gives 400 "No active event" and no change; an existing row gets the amount and the Gandu rule applies; otherwise a new row is inserted |
| Expenses.UpdateKeepsArchivedSnapshot | api/routes/expenses.js:64-126 | updates never change what archiving another event would freeze |
| Users.ByNameIsPreorder | api/routes/users.js:9 | ordering by name is a total preorder |
| Users.ListActiveSpec | api/routes/users.js:9 | the list holds exactly the active users, each once, sorted by name |
| Users.Add | api/routes/users.js:16-30 | a falsy name gives 400 "Name is required" and no change; otherwise an active user is inserted under the next id, a falsy avatar stored as NULL |
| Users.AddedUserIsListed | api/routes/users.js:9-26 | a newly added user appears in the list under its name |
| Users.PatchIdempotent | api/routes/users.js:45-46 | patching twice with the same body equals patching once; an empty body changes nothing |
| Users.Patch | api/routes/users.js:33-56 | an unknown id gives 404 "User not found"; a null name fails the NOT NULL column with 500; otherwise supplied fields replace the stored ones and the stored profile is answered |
| Users.Remove | api/routes/users.js:59-70 | only the user's active flag is cleared, and the answer is a success |
| Users.RemovedUserUnlisted | api/routes/users.js:59-70 | a removed user leaves the list, but its expense rows still join |
| Dashboard.EnteredPlusMissing | src/components/UserDashboard.js:89-115 | every amount is either entered or missing |
| Dashboard.FindUser | src/components/UserDashboard.js:38 | the current user is the first row with that id; None exactly when no row has it |
| Dashboard.DashboardState.constructor | src/components/UserDashboard.js:15-23 | the initial state: no rows, zero statistics, active, no event |
| Dashboard.DashboardState.AllEnteredIffNoneRemaining | src/components/UserDashboard.js:89-115 | everyone has entered exactly when the event is active, has rows and none is missing; missing and entered add up to all rows |
| Dashboard.DashboardState.StatsCard | src/components/UserDashboard.js:87-125 | no event; the per-person figure exactly when everyone has entered; otherwise the number still missing |
| Dashboard.DashboardState.Load | src/components/UserDashboard.js:492-507 | the state takes the rows, statistics, event and flag of `/current`, and the zero defaults when no event is active |
| Dashboard.DashboardState.RecalcStats | src/components/UserDashboard.js:484-490 | the loop sets the statistics to the null-as-zero statistics of the loaded rows and changes nothing else |
| Dashboard.DashboardState.PersonalSummary | src/components/UserDashboard.js:271-278 | shown exactly when everyone has entered and the current user has a row; its debts and credits are exactly the user's outgoing and incoming transfers |
| Dashboard.DashboardState.SummaryOfSettledUser | src/components/UserDashboard.js:271-278 | a user with a debt has a row more than 0.01 under the per-head, and one with a credit has a row more than 0.01 over it |
| Dashboard.RecalcAgreesWithServer | src/components/UserDashboard.js:484-490 | recalculating on `/current`'s rows reproduces the server's statistics |
| Dashboard.AmountToSend | src/components/UserDashboard.js:211-214 | an amount is sent exactly when the box is non-empty and parses to a number |
| Analytics.DateFilter | api/routes/analytics.js:16-34 | all events without dates; start only, start condition; end only, end condition; both, both conditions joined by AND, with the values in that order |
| Analytics.PickIndex | api/routes/analytics.js:94-95 | the reduce picks an entry with the best score, and no later entry scores as high |
| Analytics.HighlightSpec | api/routes/analytics.js:90-96 | the highlights are null exactly for an empty timeline; otherwise the max/min amount, ties going to the later entry |
| Analytics.TieGoesToLater | api/routes/analytics.js:94-95 | of two entries with equal amounts, the later one is both the max and the min |
| Analytics.SummaryOf | api/routes/analytics.js:98-103 | a NULL aggregate reads as 0; a present one passes through |
| Cache.Lookup | src/utils/cache.js:34-49 | absent or foreign entries read as null; a payload is returned exactly when no TTL is given or its age is within the TTL |
| Cache.LookupSoft | src/utils/cache.js:55-64 | a soft read equals a read without a TTL |
| Cache.Stale | src/utils/cache.js:100-109 | with a positive TTL, stale exactly when a read with that TTL finds nothing |
| Cache.SetThenGet | src/utils/cache.js:69-94 | written data is read back while its age is within the TTL, and no longer after |
| Cache.SetOthersUnchanged | src/utils/cache.js:72-80 | a write over the size limit changes nothing, and a write never changes another key's reads |
| Cache.Unprefixed | src/utils/cache.js:121-124 | exactly the keys without the cache prefix remain, unchanged |
| Cache.ClearedIsEmpty | src/utils/cache.js:121-124 | after clearing, every read is null and every key is stale |
| Cache.LocalCache.Set | src/utils/cache.js:69-94 | the storage becomes `Stored(...)`, and a fitting write is read back at once |
| Cache.LocalCache.Invalidate | src/utils/cache.js:114-116 | only that key is removed, and it reads as null afterwards |
| Cache.LocalCache.Clear | src/utils/cache.js:121-124 | the loop removes every prefixed key and keeps the other entries |
| UserStore.LeadingDigits | src/utils/userStore.js:164 | the leading digits of the string, stopping at the first non-digit |
| UserStore.ParseKey | src/utils/userStore.js:157-164 | `parseInt(String(id))` gives the id back, and NaN for an absent one |
| UserStore.EntryCarriesIncoming | src/utils/userStore.js:157-164 | the written entry carries the incoming id, name and avatar, preferring the expense-row fields |
| UserStore.Step | src/utils/userStore.js:161-165 | an iteration writes exactly when the avatar is truthy and new or different, and a write always changes the map |
| UserStore.UntouchedKeys | src/utils/userStore.js:154-166 | keys no item maps to keep their entries |
| UserStore.NoWritesNoChange | src/utils/userStore.js:167-171 | without a write the store is unchanged, in particular when no avatar is truthy |
| UserStore.MergeHolds | src/utils/userStore.js:154-166 | with each id once, every item with a truthy avatar finds it stored under its key |
| UserStore.HeldMergeIsIdle | src/utils/userStore.js:161-165 | when every avatar is already stored, a merge changes nothing and does not notify |
| UserStore.PopulateTwice | src/utils/userStore.js:154-173 | merging the same items again (each id once) changes nothing and does not notify |
| UserStore.AvatarFor | src/utils/userStore.js:70-73 | the stored avatar when there is a truthy one, otherwise null |
| UserStore.NameFor | src/utils/userStore.js:78-81 | the stored name when there is a truthy one, otherwise null |
| UserStore.AvatarAfterMerge | src/utils/userStore.js:154-166 | after a merge in which an id occurs once with a truthy avatar, the avatar lookup finds it |
| UserStore.RepeatedIdWritesAgain | src/utils/userStore.js:161-171 | items that name one id twice with different avatars write again on every merge |
| UserStore.Store.constructor | src/utils/userStore.js:16 | the store starts empty |
| UserStore.Store.GetUser | src/utils/userStore.js:86-88 | the stored profile under the id's decimal key, or null |
| UserStore.Store.PopulateFromExpenses | src/utils/userStore.js:154-173 | the loop leaves the map equal to the fold `Merge`, and reports notification exactly when some iteration wrote |

## Left out

- Floating point: amounts are exact reals. `Number(x.toFixed(2))` is rounding to whole cents with a half cent going away from zero (`Money.Round2`). Binary rounding artefacts, such as 1.005 being stored just below itself, and `toFixed`'s string form are not modelled.
- Settlements.Pair: works on local sequences rather than on the copied arrays of objects. The copies are private to the loop, so no aliasing is lost.
- Settlements.CalculateSettlements: a transfer carries the two user ids and the amount. The names and avatars copied into it for display are not modelled.
- Expenses.CurrentOf: lists rows in id order, not `ORDER BY u.name`.
- Users.ListActive: breaks ties between equal names by id, where `ORDER BY name` leaves their order open; `Users.ListActiveSpec` states membership, permutation and name order only.
- Events.HistoryOf: lists events in id order, not `ORDER BY start_date DESC, created_at DESC`. Its dates are `formatToEng` results whose contents beyond the empty case are not modelled.
- `created_at` is not modelled.
- Archive's `SELECT ... WHERE is_active = 1 LIMIT 1` has no ORDER BY. It is modelled as the highest active event; with at most one active event (`Database.ActiveEventUnique`) this is the same row.
- DateUtils.FormatToEng: the day, month and year that `new Date(iso)` yields depend on the JavaScript date parser and the local time zone. Only the empty case is stated; other inputs are an opaque reformatted value.
- `api/utils/dateUtils.js` is not part of this model. The server's `parseFromEng` is taken to be the one in `src/utils/dateUtils.js`.
- Participant ids passed to `/start` are not checked against the users table, as in the source.
- Users.Add: answers the new id only. The echoed name, avatar and active flag of the JSON body are not modelled.
- Users.Patch: the message text of the 500 answer for a null name is not stated; only the status and the unchanged tables are.
- 500 answers for database failures are not modelled; every statement succeeds.
- The `/analytics` route in `api/routes/events.js` (lines 94-152) is not part of this model.
- The SQL aggregations of `api/routes/analytics.js` (timeline, per-user and summary queries) are inputs to the model rather than computed.
- The clause text of `Analytics.DateFilter` is stated; the placeholders in it are not counted against the values.
- Concurrency: two `/update` calls racing on the Gandu check are not modelled. Each route runs atomically.
- Cache.LocalCache.Set: the size of the JSON text is a parameter. The retry after a `QuotaExceededError` (clear, then write again) is not modelled, and neither is JSON parsing. A non-payload text under a prefixed key reads as null.
- UserStore: loading from IndexedDB and the network, `init`, `refresh`, and the subscriber callbacks are not modelled. `PopulateFromExpenses` reports whether it would notify and persist.
- UserStore.ParseInt: covers non-negative decimal text only, which is all that `String` of a stored id produces.
- Dashboard: the rendering, the PIN lock screen, the admin and analytics screens, and pull-to-refresh are not modelled. Reading `currentUserId` from local storage is a constructor parameter.
- Dashboard.DashboardState.RecalcStats: the stored per-head is the rounded number, not the `toFixed(2)` string.
