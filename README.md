# Task-Manager notification core in Dafny

This project models the part of the Task-Manager backend that has rules
worth stating: the owner-scoped task operations of the task routes
(create, list, update, delete, and the user e-mail lookup) and the two
periodic jobs that mail reminders and overdue notices.

The database becomes an in-memory store, a `TaskStore` object with four fields:

- `rows`: the `tasks` table as a sequence of `Task` records. Its primary key is
  unique, and ids come from a counter (`nextId`) that starts at 1, like a SERIAL column.
- `users`: the `users` table reduced to user id → e-mail.
- `outbox`: one `Attempt(mail, delivered)` per call to the mail transport.
  `delivered` is chosen nondeterministically. The transport's exceptions are always
  caught, so no contract depends on it.

Timestamps are integers, and a NULL column is `None`. The wall clock is the
parameter `now` of the scan jobs, and one call of a job is one scan cycle.

Modules:

- `Types` (types.dfy): the records.
- `Messages` (messages.dfy): the four mails, their exact subjects and bodies, and what a
  reader can recover from them.
- `TaskTable` (table.dfy): the read-only queries (`get_user_email`, the owner-scoped lookup,
  `list_tasks`) and the row-level effect of DELETE.
- `Patching` (patching.dfy): the whitelisted partial update of `update_task`. The loop
  that builds the SET list is proved equal to a column-by-column record update.
- `Store` (store.dfy): the `TaskStore` class with `CreateTask`, `UpdateTask`,
  `DeleteTask` and `Send`.
- `Scanners` (scanners.dfy): `check_reminders` and `check_overdue` as loops over the
  table that append to the outbox, specified by the function `Firings`.

Two behaviours of the code are worth calling out:

- Create sends the "created" mail only when the owner's e-mail is non-empty (`CreatedMails`).
- Delete answers success whether or not a row matched (`DeleteTask` has no result).

## Model

| member | source | states |
|---|---|---|
| `TaskTable.UserEmail` | tasks_routes.py:12-22 | The lookup yields a value exactly when the user row exists, and that value is the user's e-mail. |
| `TaskTable.FindOwned` | tasks_routes.py:126-135 | A found row is in the table and has both the requested id and the caller as owner. Nothing is found exactly when no row matches both. |
| `TaskTable.FindOwnedUnique` | tasks_routes.py:126-130 | With a unique key, the owner-scoped lookup returns the one matching row. |
| `TaskTable.Without` | tasks_routes.py:193 | Deleting removes every row that matches id and owner, and keeps every other row with its multiplicity. |
| `TaskTable.WithoutNoMatch` | tasks_routes.py:193-199 | Deleting a task that does not exist, or that another user owns, leaves the table exactly as it was. |
| `TaskTable.WithoutUnique` | tasks_routes.py:193 | Deleting keeps the primary key unique. |
| `TaskTable.OwnedBy` | tasks_routes.py:87-92 | The selection holds each of the caller's rows as often as the table does, and no other row. |
| `TaskTable.SortByDue` | tasks_routes.py:91 | The result is sorted by due time, with NULL last as in PostgreSQL's ascending order, and is a permutation of the input. |
| `TaskTable.ListTasks` | tasks_routes.py:81-110 | list_tasks returns exactly the caller's tasks, each once per table row, sorted by due time non-decreasing. |
| `TaskTable.SortedSameDues` | tasks_routes.py:91 | Two sorted sequences holding the same rows have the same due time at every position. |
| `TaskTable.ListingIgnoresInsertionOrder` | tasks_routes.py:87-92 | Two tables holding the same rows in any insertion order give listings with the same due time at every position. |
| `Patching.BuildAssignments` | tasks_routes.py:139-149 | The loop over the five whitelisted keys builds an empty SET list exactly when no whitelisted key is present. Each item is a present key with its value, and applying the list equals the column-by-column update. |
| `Patching.WhitelistCovers` | tasks_routes.py:143-149 | No whitelisted key is present exactly when the patch is empty ("Nothing to update"). |
| `Patching.PatchedKeepsAbsent` | tasks_routes.py:143-146 | An update never changes the id or the owner, never changes a column whose key is absent, and an empty patch changes nothing. |
| `Patching.SetWhereIsUpdate` | tasks_routes.py:151-157 | Running the SET list built from a patch on the rows matching id and owner gives the record-level update of the table. |
| `Patching.UpdateTouchesOnlyMatch` | tasks_routes.py:153-157 | The UPDATE leaves every non-matching row unchanged, keeps every row's id and owner, and keeps the primary key unique. |
| `Patching.CompletionTransitionOnly` | tasks_routes.py:164 | The completion condition holds exactly when the old flag is false and the updated flag is true. So re-completing, omitting the key and reverting never count. |
| `Store.NewTask` | tasks_routes.py:45-51 | An accepted create inserts a row with the fresh id, owned by the caller and not completed. |
| `Store.Accepted` | tasks_routes.py:39-40 | A create request is accepted exactly when its title is present and non-empty and both timestamps are present. The description may be missing. |
| `Store.CreatedMails` | tasks_routes.py:56-71 | An accepted create produces at most one mail. It produces one exactly when the owner has a non-empty e-mail, and that mail is the "created" mail to that address for the request's title, description and timestamps. |
| `Store.CompletedMails` | tasks_routes.py:163-177 | An update produces at most one mail. It produces one exactly on the false-to-true transition when the owner has a non-empty e-mail, and the mail names the title the task had before the update. |
| `Store.TaskStore.Send` | app.py:19-33 | A send always returns and records exactly one attempt with the given mail, whether or not the transport failed. The earlier outbox is kept. |
| `Store.TaskStore.CreateTask` | tasks_routes.py:30-73 | Creation fails exactly when the title is missing or empty or a timestamp is missing. A failed create changes nothing. A successful create returns the fresh id, appends exactly that row, keeps all other rows, and sends the "created" mails whatever the transport does. Earlier outbox attempts, with their delivery flags, are kept. |
| `Store.TaskStore.UpdateTask` | tasks_routes.py:118-179 | An update reports not-found exactly when no row matches id and owner, and "Nothing to update" exactly when a row matches but the patch is empty. Both leave the table and the outbox unchanged. A successful update applies the patch to the matching row only, and sends the completion mails whatever the transport does. Earlier outbox attempts, with their delivery flags, are kept. |
| `Store.TaskStore.DeleteTask` | tasks_routes.py:187-199 | Delete removes exactly the rows matching id and owner. It leaves the table unchanged when none match, and always completes. |
| `Messages.CreatedDescription` | tasks_routes.py:63 | The description line shows the description when it is non-empty, and '-' when it is missing or empty. |
| `Messages.CreatedBody` | tasks_routes.py:59-67 | The "created" body: the title, the description or '-', the due time and the reminder time, each on its own labelled line. |
| `Messages.CompletedMail` | tasks_routes.py:168-173 | The "completed" mail goes to the given address with the "Task Completed" subject. |
| `Messages.CompletedBodyCarries` | tasks_routes.py:171 | The "completed" body contains the task's title. |
| `Messages.CreatedBodyCarries` | tasks_routes.py:59-67 | The "created" body contains the title, the description (or '-'), the due time and the reminder time. |
| `Messages.ReminderBodyCarries` | app.py:59-60 | The reminder body contains the title, the description (NULL shown as "None") and the reminder time. |
| `Messages.OverdueBodyCarries` | app.py:91-92 | The overdue body contains the title, the description and the due time. |
| `Messages.SubjectsCarryTitle` | app.py:59-91 | The title can be read back from the reminder and overdue subjects after their prefixes, and neither subject carries the other's prefix. |
| `Messages.StampRoundTrip` | app.py:60 | A timestamp printed into a body reads back unchanged. |
| `Scanners.Reached` | app.py:58-90 | A reminder is reached when the reminder time is set and `<= now`. A task is overdue only when the due time is set and strictly `< now`. |
| `Scanners.Fires` | app.py:49-58 | A row is selected when it is incomplete (the query's filter) and its timestamp is reached (the loop's test). |
| `Scanners.ScanMail` | app.py:59-92 | A scan mail goes to the joined e-mail, and its subject carries the task's title after the scan's own prefix. |
| `Scanners.Firings` | app.py:55-62 | A cycle's sends, in fetch order: each fetched row contributes its mail when it qualifies. A cycle never sends more mails than there are rows. |
| `Scanners.RowFirings` | app.py:55-62 | A fetched row yields a mail exactly when its owner has a users row and the row is incomplete with its timestamp set and reached. The mail goes to the joined e-mail and is logged with the row's id. |
| `Scanners.FiringsFromRows` | app.py:45-62 | Every mail of a scan cycle comes from a qualifying row and is that row's mail to the owner's address. |
| `Scanners.RowsFire` | app.py:45-62 | Every qualifying row gets its mail in the cycle, so a failed send never makes the scan skip a row. |
| `Scanners.FiresIff` | app.py:45-58 | A task is mailed in a cycle exactly when it is incomplete, its owner exists, and its reminder is set and `<= now` (reminder scan) or its due time is set and `< now` (overdue scan). |
| `Scanners.OnePerTask` | app.py:55-61 | With a unique key, a cycle mails each task at most once. |
| `Scanners.CompletedNeverFires` | app.py:45-50 | A completed task never produces a reminder or an overdue mail, whatever its timestamps. |
| `Scanners.BoundaryAtNow` | app.py:58-90 | In any table, an incomplete task whose owner exists and whose due and reminder times both equal `now` gets its reminder in that cycle but is not yet mailed as overdue. |
| `Scanners.ScanRow` | app.py:56-62 | The loop body mails one fetched row exactly when the join keeps it and it qualifies, logs its id in that case, and keeps every earlier outbox attempt. |
| `Scanners.RunScan` | app.py:55-62 | The loop appends exactly the cycle's mails in the order it fetches the rows, and returns the ids it logged. It keeps every earlier outbox attempt and changes no row. |
| `Scanners.CheckReminders` | app.py:39-65 | One reminder cycle mails exactly the qualifying tasks, in fetch order, keeps every earlier outbox attempt and changes no task. |
| `Scanners.CheckOverdue` | app.py:71-97 | One overdue cycle mails exactly the qualifying tasks, in fetch order, keeps every earlier outbox attempt and changes no task. |
| `Scanners.RepeatedCycles` | app.py:120-121 | No sent-flag exists, so two cycles at the same `now` mail the same tasks twice with the same mails. |
| `Scanners.Tick` | app.py:120-123 | One scheduler tick runs both jobs and appends the reminder mails followed by the overdue mails. |

## Left out

- Registration and login (bcrypt hashing, JWT issuance) are not part of this model. The caller's
  user id is a parameter of every operation, and the users table is fixed when the store is built.
- The browser front end is not part of this model. Its counts and filters only re-filter listed tasks.
- The SMTP transport is not modelled. Sending appends an attempt whose `delivered` flag is arbitrary.
- Printed log lines are not modelled, except the task ids the scanners log, which `RunScan` returns.
- Database failures are not modelled: every query succeeds. This covers a connection that fails
  (`get_connection` returning None) and a scan cycle aborted by a query error.
- Connection and cursor handling is not modelled. This includes the connection left open on the
  "Nothing to update" path.
- The background scheduler's threads, its one-minute interval and races between requests and
  scans are not modelled. One call of a job or of `Tick` is one cycle at a given `now`.
- Datetimes are integers. Request strings are not parsed, and an empty datetime string counts as
  missing. The scanner mails print the fetched timestamps in decimal rather than as Python
  datetimes. The "created" mail prints the request's raw datetime strings, which the model
  renders from the parsed integer in the same decimal form.
- The JSON response shapes are not modelled. The listing returns whole rows rather than
  dictionaries with stringified datetimes. The order of tasks with equal due times is left open,
  as the SQL leaves it.
- Request values are typed. A patch carries a string title, optional description and timestamps,
  and a boolean completion flag. A null title in a patch and values of other JSON types, which the
  database would accept or reject by its schema, are not modelled.
- Foreign keys are not modelled. A create for a user without a users row still inserts, and the
  scanners' join drops such rows.
- Scanners.RunScan: the scan is taken to fetch rows in the table's sequence order. The queries
  have no ORDER BY, and an UPDATE may move a row in PostgreSQL's heap while `UpdateTask` keeps
  it in place. So the order of a cycle's mails, and `RepeatedCycles`' equal id lists, hold for
  the model's row order only. Which tasks are mailed (`FiresIff`) does not depend on order.
- The SERIAL sequence is a counter. Gaps left by failed transactions are not modelled.
- The generated SQL text (the SET clause string) is not modelled. It becomes a list of column
  assignments with the same effect.
