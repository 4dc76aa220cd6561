# NeuroNudge record access, modelled in Dafny

NeuroNudge's backend (`app.py`) is a Flask service over one SQLite file with
six tables: users, behavioural samples, emotion sessions, interventions, tasks
and wellbeing reports. Every row belongs to the fixed user `default-user`.
This project models what the request handlers do to those tables and what
they reply.

- **Tables.** Each table is a sequence of rows with a primary key and an owner
  (`Records`). The whole file is the class `Store.Database`, whose handler
  methods change its sequences in place.
- **Statements.** `UPDATE … WHERE id = ?`, `DELETE … WHERE id = ?` and
  `INSERT` are modelled with SQLite's outcomes: rowcount, NOT NULL and
  primary-key failures, the error for an empty `SET` clause, and what sqlite3
  can bind (`Records`, `Sql`).
- **Patch builders.** The sparse-patch builders build the `SET` list and the
  value list (`Patch`). `update_task`'s is a loop over five columns followed by
  `optimalEmotions`. `update_emotion_session`'s is two conditional appends.
  `update_intervention` always writes `accepted`.
- **Handlers.** Each create, patch and delete handler is a function from the
  table before the request to the reply and the table after it (`Access`).
  This includes the status codes 400, 404 and 500 and their messages.
- **Reading tasks back.** `optimal_emotions` becomes `optimalEmotions`, and `[]`
  is used when the stored text is NULL, empty or does not parse. A JSON value
  type with the `json.dumps` text encoding and a decoder for it, with the round
  trip proved (`Json`).
- **Listings.** The listing endpoints, and the behavioural listing's `limit`,
  newest-first order and cap (`Queries`).
- **Analytics.** `get_today_analytics`: today's averages with their fallbacks
  68, 142 and 8.2, the constants 3, 5 and 7.8, and the completed and total task
  counts (`Analytics`).
- **Seeding.** `init_db` adds the demo user and three starter tasks only when
  `default-user` is missing, so running it again changes nothing (`Seed`).

The clock and the random ids (`uuid4`, `randomblob`) are parameters: `now` is
the current time in seconds, `today` the current day number, and `newId` / `a`,
`b`, `c` are the ids the store would generate. An error reply always leaves the
tables as they were, because the handlers commit only after the statement
succeeds.

Three behaviours of the code that a reader might not expect:

- A PATCH whose payload has no recognised key builds `SET` with no
  assignments. SQLite rejects that statement, so the reply is 500 (`app.py:418-443`),
  not a no-op update.
- `emotions` and `report_data` are stored as JSON text and returned as that
  text. Only a task's `optimal_emotions` is decoded on read (`app.py:234-238`,
  `app.py:495-499`).
- The analytics fallbacks apply when an average is NULL and also when it is 0,
  because `avg or 68` treats 0 as false (`app.py:531-533`).

## Model

| member | source | states |
|---|---|---|
| Patch.BuildTaskUpdate | app.py:404-416 | The loop over the five plain columns, then `optimalEmotions`, then the id, builds exactly `TaskSetColumns(data)` and the matching value list followed by the id. |
| Patch.PlainColumnStep | app.py:407-410 | One turn of the loop: the visited column joins the SET list, with its payload value as the parameter, exactly when its key is in the payload. |
| Patch.TaskSetColumnsIff | app.py:407-414 | A task column is in the SET list exactly when its payload key (`optimalEmotions` for `optimal_emotions`) is in the payload. |
| Patch.TaskSetColumnsOrdered | app.py:407-414 | The SET list is strictly ordered title, description, priority, complexity, completed, optimal_emotions, so no column appears twice. |
| Patch.TaskValuesMatch | app.py:404-416 | The value list has one more entry than the SET list. Entry i is the payload value of column i (the JSON text for `optimal_emotions`), and the last entry is the id. |
| Patch.TaskSetColumnsEmpty | app.py:404-416 | The SET list is empty exactly when the payload has none of the six keys. |
| Patch.AssignTaskEffect | app.py:418-422 | Applying distinct assignments sets each named column to its value and keeps every other column and the creation time. |
| Patch.BuildSessionUpdate | app.py:250-261 | The session builder yields `end_time` before `emotions`, each only if present, with the values and then the id. |
| Patch.TaskSetColumns | app.py:407-414 | The SET list has at most six columns, and ends with `optimal_emotions` exactly when the payload has `optimalEmotions`; `TaskSetColumnsIff`, `TaskSetColumnsOrdered` and `TaskSetColumnsEmpty` state the rest. |
| Patch.AssignTask | app.py:418-422 | Applying the SET list to a row keeps the creation time and every column not in the list; `AssignTaskEffect` gives the assigned values. |
| Patch.SessionSetColumnsSpec | app.py:250-261 | A session column is in SET exactly when its key is present. Two columns come in the order end_time, emotions. SET is empty exactly when both keys are absent. The value list is one longer than SET, with the id last. |
| Patch.SessionSetColumns | app.py:253-259 | The session SET list has at most two columns, with `end_time` exactly when its key is present and `emotions` exactly when its key is present; `SessionSetColumnsSpec` gives the order. |
| Sql.Bind | app.py:418-422 | sqlite3's binding: a string becomes TEXT, None becomes NULL, a bool becomes 1 or 0, and an int within 64 bits becomes INTEGER. A list, a dict or an out-of-range int cannot be bound. |
| Sql.BindAll | app.py:418-422 | A statement's parameters bind exactly when each one binds, position by position. |
| Records.IndexOf | app.py:429-430 | `WHERE id = ?` finds a row with that key, or none exactly when no row has it. |
| Records.IndexOfUnique | app.py:70 | With the primary-key constraint, the row found for a key is the one row holding it. |
| Records.OwnedBy | app.py:377 | `WHERE user_id = ?` keeps exactly that user's rows, drawn from the table. |
| Records.OwnedByAppend | app.py:377 | An appended row of that user is listed last, and other rows keep their order. |
| Records.ExecUpdate | app.py:418-425 | An empty SET is a syntax error. Otherwise at most one row changes, keeping its key and owner and meeting NOT NULL. A rowcount of 0 leaves the table unchanged. |
| Records.ExecUpdateKeepsUnique | app.py:70 | A successful UPDATE keeps the primary keys unique. |
| Records.ExecDelete | app.py:451-454 | DELETE succeeds, and its rowcount is 0 exactly when no row has the key, in which case the table is unchanged. |
| Records.Without | app.py:451 | The rows left by a delete are no more than before, and none of them has the deleted key. |
| Records.WithoutAt | app.py:451 | With unique keys, deleting the row at k gives `t[..k] + t[k+1..]`. |
| Records.WithoutMembers | app.py:451 | The rows left after a delete are exactly the rows with another key. |
| Records.ExecDeleteKeepsUnique | app.py:451 | A DELETE keeps the primary keys unique. |
| Records.ExecInsert | app.py:353-358 | An INSERT succeeds exactly when NOT NULL holds and the key is fresh, and then appends the row. |
| Records.InsertKeepsUnique | app.py:353-358 | Inserting a fresh key keeps the primary keys unique. |
| Records.DecodeOptimalEmotions | app.py:381-388 | The stored text is decoded when it is truthy and parses. A NULL, empty, unparsable or non-text value gives `[]`. |
| Records.StoredEmotionsRoundTrip | app.py:431-438 | Storing `json.dumps(j)` and reading it back through the fallback gives `j`. |
| Records.TaskView | app.py:380-388 | The record returned for a task row keeps its id, owner and `completed`, and has `optimalEmotions` `[]` when the stored text is NULL or empty; `StoredEmotionsRoundTrip` gives the decoded list. |
| Json.DecodeEncode | app.py:433 | `json.loads(json.dumps(j)) == j` for every JSON value. |
| Json.Encode | app.py:358 | `json.dumps`: the text is never empty, so a stored encoding is always truthy (app.py:431); a string is quoted, a list is bracketed and a dict is braced; `DecodeEncode` is its inverse. |
| Json.Decode | app.py:433 | `json.loads`: empty text fails, and a value is returned only when it spans the whole text; `DecodeEncode` states it undoes `Encode`. |
| Access.UpdateTask | app.py:396-443 | `update_task`: never changes the number of rows. A 200 reply is the row with the requested id. An error is 404 "Task not found", with the table unchanged, or 500 "Failed to update task". `UpdateTaskExisting` and `UpdateTaskMissing` state when each happens. |
| Access.TaskAssignmentEffect | app.py:407-422 | With the bound values, the patched row has every named column set to its payload value and every other column as it was. |
| Access.TaskPatchedUnique | app.py:407-422 | The patched row is determined uniquely by the old row and the payload. |
| Access.UpdateTaskExisting | app.py:407-441 | A patch of an existing task succeeds iff SET is non-empty, every value binds and NOT NULL holds. Then only that row changes, only in the named columns, and the reply is the row read back. Otherwise the reply is 500 and the table is unchanged. |
| Access.UpdateTaskMissing | app.py:418-425 | A patch of a missing id leaves the table unchanged. It replies 404 "Task not found", or 500 when the statement fails first. |
| Access.UpdateTaskEmptyPayload | app.py:418-443 | A payload with none of the six keys replies 500 "Failed to update task" and changes nothing. |
| Access.UpdateTaskReadBack | app.py:429-438 | In the patch reply, `optimalEmotions` is the payload's value when given, and otherwise the stored value decoded. |
| Access.DeleteTask | app.py:445-459 | `delete_task`: succeeds iff the id exists, and then removes a row and the id is gone. Otherwise it replies 404 "Task not found" with the table unchanged. |
| Access.DeleteTaskSpec | app.py:451-459 | Delete succeeds iff the id exists. It then removes exactly that row, keeping order and unique keys, and the id is gone. A missing id is 404 with no change. |
| Access.DeleteTaskTwice | app.py:451-459 | Deleting an existing task succeeds; deleting it again is 404 and leaves the table as the first delete left it. |
| Access.CreateTask | app.py:346-369 | `create_task`: either 400 "Invalid task data" with the table unchanged, or the new default-user row with the new id, appended and returned raw. |
| Access.CreateTaskSpec | app.py:353-369 | A task is created iff all values bind, title and priority are given and the id is fresh. The raw row is appended and returned with the payload's values, `completed` 'false', `created_at` now, and `optimal_emotions` decoding to the payload's list (`[]` if absent). Otherwise the reply is 400 with no change. |
| Access.CreatedTaskListed | app.py:353-389 | A created task is the last one `get_tasks` lists, and its `optimalEmotions` there is the list the payload gave. |
| Access.UpdateSession | app.py:242-280 | `update_emotion_session`: never changes the number of rows. A 200 reply is the stored row with the requested id. An error is 404 with the table unchanged, or 500. |
| Access.SessionAssignmentEffect | app.py:250-267 | A session patch sets `end_time` to the payload value and `emotions` to its JSON text, each only if present. The start time is kept. |
| Access.SessionBinding | app.py:253-267 | The session UPDATE's parameters bind exactly when `end_time`, if present, binds. |
| Access.UpdateSessionExisting | app.py:249-280 | Patching an existing session succeeds iff a key is present and binds. Then only that row changes, as the payload says, and the raw row is replied. Otherwise 500 with no change. |
| Access.UpdateSessionMissing | app.py:263-270 | A missing session id leaves the table unchanged and replies 404, or 500 when the statement is malformed or cannot bind. |
| Access.CreateSession | app.py:205-226 | `create_emotion_session`: either 400 "Invalid emotion session data" with the table unchanged, or the new default-user row, appended and returned. |
| Access.CreateSessionSpec | app.py:212-226 | A session is created iff the id is fresh. The row starts now, has a NULL end and stores the JSON text of `emotions` (`{}` if absent). |
| Access.UpdateIntervention | app.py:320-344 | `update_intervention`: never changes the number of rows. A 200 reply is the stored row with the requested id. An error is 404 with the table unchanged, or 500. |
| Access.UpdateInterventionSpec | app.py:327-344 | The intervention patch always overwrites `accepted`, with NULL when the key is absent, and nothing else changes. A missing id is 404, or 500 when the value cannot bind. |
| Access.CreateIntervention | app.py:282-304 | `create_intervention`: either 400 "Invalid intervention data" with the table unchanged, or the new default-user row, appended and returned. |
| Access.CreateInterventionSpec | app.py:289-304 | An intervention is created iff the values bind, `type`, `emotion` and `message` are non-null and the id is fresh, and then holds the payload's values; otherwise 400 with no change. |
| Access.CreateSample | app.py:161-183 | `create_behavioral_data`: either 400 "Invalid behavioral data" with the table unchanged, or the new row timestamped now, appended and returned. |
| Access.CreateSampleSpec | app.py:168-183 | A sample is created iff the values bind and the id is fresh, timestamped now with the payload's readings; otherwise 400 with no change. |
| Access.CreateReport | app.py:463-487 | `create_wellbeing_report`: either 400 "Invalid wellbeing report data" with the table unchanged, or the new default-user row, appended and returned. |
| Access.CreateReportSpec | app.py:470-487 | A report is created iff the values bind, `weekStartDate` is non-null and the id is fresh. Its `report_data` decodes to the payload's (`{}` if absent). |
| Queries.ParseLimit | app.py:186-203 | `int()` of the argument: it parses exactly when the text is ASCII digits, optionally after a '+' or '-'; anything else, the empty text included, raises and becomes the 500. A leading '-' gives a non-positive value, otherwise non-negative. |
| Queries.LimitTextRoundTrip | app.py:188 | Every integer's decimal text parses back to that integer. |
| Queries.ParseLimitUnsigned | app.py:188 | A run of digits parses to its decimal value. |
| Queries.ParseLimitNegative | app.py:188 | A '-' followed by digits parses to the negated value. |
| Queries.InsertByTime | app.py:195 | One step of the newest-first sort adds exactly one row; `InsertByTimeKeeps`, `InsertByTimeIn` and `InsertByTimeSorted` state what it keeps and how it orders. |
| Queries.InsertByTimeKeeps | app.py:195 | One insertion step keeps the rows as a multiset, plus the new one. |
| Queries.InsertByTimeIn | app.py:195 | A row is in the result of an insertion step exactly when it is the new row or one of the old rows. |
| Queries.InsertByTimeSorted | app.py:195 | Inserting into a newest-first list keeps it newest first. |
| Queries.SortByTime | app.py:195 | `ORDER BY timestamp DESC` keeps the number of rows; `SortByTimeKeeps` and `SortByTimeSorted` prove it a newest-first permutation. |
| Queries.SortByTimeKeeps | app.py:195 | `ORDER BY timestamp DESC` is a permutation of the rows. |
| Queries.SortByTimeSorted | app.py:195 | The ordered rows are newest first. |
| Queries.NewestPrefix | app.py:196 | A `LIMIT` prefix of a newest-first list is newest first, and no row left out is newer than one kept. |
| Queries.Capped | app.py:196 | `LIMIT n` keeps min(n, rows) rows, and all rows when n is negative. |
| Queries.ListSamples | app.py:185-203 | `get_behavioral_data`: an error is always 500 "Failed to fetch behavioral data". A listing has at most the default user's rows. Without a `limit` argument it always succeeds. |
| Queries.ListSamplesShape | app.py:188-203 | The listing fails with 500 iff the limit does not parse or fit in 64 bits. Otherwise it is the owned rows sorted newest first, cut at the limit. |
| Queries.NewestOwned | app.py:192-197 | The kept rows are newest first and drawn from the owned rows, and none left out is newer. |
| Queries.ListSamplesSpec | app.py:188-199 | A successful listing has min(limit, owned rows) rows, all of them default-user rows of the table, newest first, and no owned row left out is newer than one listed. |
| Queries.ListSamplesDefault | app.py:188 | Without a `limit` argument the listing succeeds with min(100, owned rows) rows. |
| Queries.ListOwned | app.py:234-238 | The session, intervention and report listings hold exactly the default user's rows. |
| Queries.ListOwnedAll | app.py:234 | When every row is the default user's, the listing is the whole table in order. |
| Analytics.TodaySamplesSpec | app.py:510-515 | A sample is averaged iff it is in the table, is the default user's, and is dated today. |
| Analytics.TodaySamplesNone | app.py:510-515 | With no default-user sample today, no row is averaged. |
| Analytics.TodaySamplesAppend | app.py:514 | A new sample is added to today's rows iff it is the default user's and dated today. |
| Analytics.TodaySamples | app.py:510-515 | Today's rows are no more than the table's, and each is a row of the table, the default user's and dated today; `TodaySamplesSpec` gives the converse. |
| Analytics.Values | app.py:511-512 | AVG's inputs skip NULL: at most one value per row, one per row when no cell is NULL, and none when every cell is NULL; `ValuesAppend` gives the contents. |
| Analytics.ValuesAppend | app.py:511-512 | A further cell adds its number to AVG's inputs, at the end, unless it is NULL. |
| Analytics.Numeric | app.py:511-512 | The number AVG sees for a cell: none exactly for NULL, and an integer as itself. |
| Analytics.TypingColumn | app.py:511 | The `typing_speed` column of the rows: one cell per row, in order. |
| Analytics.MouseColumn | app.py:511 | The `mouse_activity` column of the rows: one cell per row, in order. |
| Analytics.FocusColumn | app.py:512 | The `focus_score` column of the rows: one cell per row, in order. |
| Analytics.AnalyticsIgnoresOtherRows | app.py:510-515 | A sample of another user or another day leaves the snapshot unchanged. |
| Analytics.AverageOr | app.py:531-532 | `int(AVG(col) or fallback)`: the fallback when there is no value or the values sum to 0 (an average of 0 is falsy). Otherwise, when the sum is non-zero, the sum divided by the count, truncated toward zero (bounds for positive and negative sums). |
| Analytics.FocusOf | app.py:533 | `AVG(focus_score) or 8.2`: the fallback 8.2 when there is no value or the values sum to 0, and otherwise exactly the mean `MeanFocus(Sum(vs), |vs|)` of all values read. |
| Analytics.TruncDiv | app.py:531-532 | `int()` of a quotient truncates toward zero: the bounds for non-negative and negative numerators. |
| Analytics.TruncDivBounds | app.py:531-532 | A truncated quotient of a sum of n values in [lo, hi] lies in [lo, hi]. |
| Analytics.AverageBounds | app.py:531-532 | A reported average lies between the smallest and the largest reading. |
| Analytics.ZeroAverageFallsBack | app.py:531-533 | Readings that are all 0 report the fallback, not 0, for the typing and mouse averages and for the focus score. |
| Analytics.CompletedCount | app.py:522 | The completed count is at most the number of rows. |
| Analytics.CompletedCountExtremes | app.py:520-524 | The count is 0 iff no row's `completed` is 'true', and equals the total iff every row's is. |
| Analytics.CompletedCountUpdate | app.py:522 | Replacing one row changes the count by the difference of the two rows' contributions. |
| Analytics.TodayAnalytics | app.py:503-543 | `get_today_analytics`: completed ≤ total ≤ the number of task rows, and with no default-user sample today all three averages take their fallbacks. |
| Analytics.TodayAnalyticsFallbacks | app.py:510-533 | With no default-user sample today, the averages are 68, 142 and 8.2, whatever the tasks. |
| Analytics.TodayAnalyticsCounts | app.py:520-539 | `totalTasks` is the default user's task count and `tasksCompleted` is the count of those whose `completed` is 'true', never more than the total. The constants are 3, 5 and 7.8. |
| Analytics.TodayAnalyticsAverages | app.py:510-533 | Each of the three averages is `AverageOr` / `FocusOf` of the non-NULL readings of that column over the default user's samples dated today. |
| Analytics.TodayReadingsExample | app.py:510-533 | Two samples today, typing (70, NULL), mouse (150, 151) and focus (9, NULL), give 70, 150 (301 / 2 truncated) and the mean 9 / 1: NULLs are skipped. |
| Analytics.OneOfThreeCompleted | app.py:520-537 | Three owned tasks, one with `completed` 'true', are reported as 1 completed of 3. |
| Analytics.TodayAnalyticsEmpty | app.py:530-539 | With no task and no sample today the snapshot is 68, 142, 8.2, 3, 5, 7.8, 0, 0. |
| Seed.SeedTasks | app.py:108-139 | The three starter tasks carry the three ids, belong to the default user and are not completed. |
| Seed.SeedTaskReadBack | app.py:108-139 | Read back, a starter task shows exactly its emotion list, not completed, owned by the default user. |
| Seed.InsertAll | app.py:141-146 | The seeding loop's inserts, each under the NOT NULL check: when all succeed, the table grows by exactly the number of rows. |
| Seed.InitDb | app.py:99-146 | `init_db`'s seeding. When `default-user` exists it changes nothing. When it is missing and seeding succeeds, the demo user is added, `default-user` is then present, and the task table grows by 3. |
| Seed.InitDbEmpty | app.py:100-146 | Seeding an empty database adds exactly the demo user and the three starter tasks. |
| Seed.FreshSeedInserts | app.py:141-146 | Three rows with distinct keys and their NOT NULL columns are all inserted into an empty table. |
| Seed.InsertAllFromEmpty | app.py:141-146 | Rows with unique keys and their NOT NULL columns are all inserted into an empty table, in order. |
| Seed.InsertAllSpec | app.py:141-146 | When the inserts succeed the table gains exactly the rows, in order. |
| Seed.InsertAllSucceeds | app.py:141-146 | Inserts with distinct fresh keys and non-null `title` and `priority` all succeed. |
| Seed.InitDbFresh | app.py:100-146 | Without the default user, a successful seeding adds the demo user and exactly the three tasks, and keeps both tables' keys unique. |
| Seed.InitDbIdempotent | app.py:100-101 | Seeding again after a seeding, with any ids and clock, changes nothing. |
| Seed.InitDbAnalytics | app.py:100-146 | Seeding an empty database succeeds, and the snapshot shows 3 tasks with 0 completed. |
| Seed.OpenTasksAnalytics | app.py:520-524 | Tables of the default user's open tasks count all as total and none as completed. |
| Store.Database.constructor | app.py:14-97 | A new database has six empty tables. |
| Store.Database.InitDb | app.py:100-146 | The seeding loop inserts the three tasks one by one. Its result and new `users`/`tasks` are those of `Seed.InitDb`, and the other tables are unchanged. |
| Store.Database.CreateTask | app.py:346-369 | The reply and new `tasks` are those of `Access.CreateTask`, the keys stay unique and no other table changes. |
| Store.Database.UpdateTask | app.py:396-443 | Builds the patch, runs it and reads the row back. The reply and new `tasks` are those of `Access.UpdateTask`, and no other table changes. |
| Store.Database.DeleteTask | app.py:445-461 | The reply and new `tasks` are those of `Access.DeleteTask`, and no other table changes. |
| Store.Database.ListTasks | app.py:371-394 | The loop lists every default-user task in order, each with `optimal_emotions` replaced by its decoded `optimalEmotions`. |
| Store.Database.CreateEmotionSession | app.py:205-226 | The reply and new `sessions` are those of `Access.CreateSession`, and no other table changes. |
| Store.Database.UpdateEmotionSession | app.py:242-280 | Builds the patch, runs it and reads the row back. The reply and new `sessions` are those of `Access.UpdateSession`. |
| Store.Database.CreateIntervention | app.py:282-304 | The reply and new `interventions` are those of `Access.CreateIntervention`, and no other table changes. |
| Store.Database.UpdateIntervention | app.py:320-344 | The reply and new `interventions` are those of `Access.UpdateIntervention`, and no other table changes. |
| Store.Database.CreateBehavioralData | app.py:161-183 | The reply and new `samples` are those of `Access.CreateSample`, and no other table changes. |
| Store.Database.CreateWellbeingReport | app.py:463-487 | The reply and new `reports` are those of `Access.CreateReport`, and no other table changes. |

## Left out

- Flask routing, CORS, `request.json`, `jsonify` and static file serving: HTTP plumbing. A request body is a map from key to JSON value, and a body that is not an object is not modelled.
- Connections, `commit` and `close`, including the connection left open on the 404 early returns: resource handling. An error reply stands for a statement that was not committed, so the tables are unchanged.
- Table DDL: only the primary keys, the NOT NULL columns, `completed` defaulting to 'false' and the creation timestamps are kept.
- The UNIQUE username and the seeding insert of the demo user are modelled. Foreign keys are not modelled, because SQLite does not enforce them by default.
- Random ids and the clock: passed in as parameters (`newId`, `a`, `b`, `c`, `now`, `today`). `DATE(timestamp)` is the timestamp divided by 86400.
- The `lastrowid` / `rowid` read-back of the create handlers: modelled as the row just appended.
- Floating point: REAL columns and JSON numbers are integers, and averages are exact sums over counts.
- Analytics.FocusOf: keeps the focus average as a sum and a count; the `round(…, 1)` to one decimal is not modelled.
- Analytics.TodayAnalytics: a text value in a REAL column counts as 0 in AVG, and SQLite's conversion of numeric-looking text is not modelled.
- SQLite's type affinity: a value is stored as it was bound, for example an integer in a TEXT column stays an integer.
- Json.Encode: a simplified `json.dumps` in which strings escape only `"` and `\`. There are no `\u` escapes, no control-character escapes and no floats.
- Json.Decode: it accepts exactly that encoding, with no whitespace variants, so text it cannot read falls back to `[]` when a task is read back.
- Queries.ParseLimit: Python's `int()` also accepts surrounding whitespace, digit-separating underscores and non-ASCII Unicode decimal digits (Arabic-Indic "١٠" is 10); only ASCII digits are modelled.
- Queries.SortByTime: the order of rows with equal timestamps is whatever the insertion sort gives; SQLite leaves it unspecified.
- `get_tasks`, the other listings and `delete_task` reply 500 only when the database itself fails, which is not modelled. Their other results are modelled, and `Access.DeleteTask` therefore never replies 500.
- Sql.Reply: an error reply carries the status and the `message`. The `'error': str(e)` field with the Python exception's text, sent beside `message` in every 400 and 500 reply (for example `app.py:183`, `app.py:443`), is not modelled, because it is the text of an exception raised by code outside the model.
- `run.py`: it only prints messages and starts the server.
