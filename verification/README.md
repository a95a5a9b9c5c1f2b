# Task layer of the task manager, in Dafny

This project models the backend of a personal task manager. The backend is one
`tasks` table behind owner-scoped queries and mutations. Three layers are modelled:

- **Validation** (`validation.dfy`). These are pure checks on a title, a description, a
  due date and the two enumerations. The title, description and due-date checks return
  `{ valid, error? }`; the two enumeration checks return a boolean.
- **Data access** (`tasks_db.dfy`). This covers insert, get, the three index lookups
  (by owner, owner and status, owner and priority), partial patch, delete and
  mark-complete. They run on a `Store`, which is a `map<TaskId, Task>` plus the counter
  that hands out fresh ids.
- **Endpoints** (`endpoints.dfy`). There are eight handlers: `list`, `listByStatus`,
  `listByPriority`, `get`, `create`, `update`, `remove` and `markComplete`. Each one
  checks the caller first. Handlers that take a task id then check that the task exists,
  then that the caller owns it. Handlers that write check their inputs next, and only
  then call the data-access layer. A handler that throws returns `Failure(e)` and no
  store, so the table is left as it was.

Supporting modules:

- `strings.dfy` models JavaScript's `trim` and `length`. `length` counts UTF-16 code
  units.
- `schema.dfy` holds the record, the enumerations and the index keys.
- `server.dfy` puts the eight handlers behind one `Handle` dispatcher and states the
  properties of every call. A failure changes nothing. No caller ever sees or changes
  another user's task. Stored fields stay within their limits. With a clock that never
  runs backwards, `createdAt <= updatedAt` holds.

Inputs that come from outside the code are parameters:

- The authenticated user is an `Option<UserId>`, standing for the result of
  `getAuthUser`.
- The clock reading `Date.now()` is `now: int`.

Ids come from a counter that only grows. So a larger id means a later insertion, and
the id stands in for the document's `_creationTime`. Each list query fixes the whole
index key, so the store returns matching rows in `_creationTime` order. `.order("desc")`
is therefore "descending id" here.

Three facts about the code shape the model:

- The length limits apply to the raw, untrimmed string (`helpers/validation.ts:18`,
  `:29`). Only the stored value is trimmed (`endpoints/tasks.ts:133-134`, `:198-199`).
- Every error is a thrown `Error` with a message (`endpoints/tasks.ts:26`, `:83`, `:88`,
  `:117`, and the other `throw` sites): "Not authenticated", "Task not found",
  "Unauthorized", or the validator's message. `Endpoints.Error` models it that way.
- `updatedAt` is `Date.now()` (`db/tasks.ts:105`, `:122`), so two writes in the same
  millisecond can share it. Only `updatedAt == now` is stated.

## Model

| member | source | states |
|---|---|---|
| JsStrings.Utf16LengthBounds | packages/backend/convex/helpers/validation.ts:18 | `length` counts UTF-16 code units: between `|s|` and `2|s|`, and exactly `|s|` iff every character is in the Basic Multilingual Plane |
| JsStrings.Trim | packages/backend/convex/endpoints/tasks.ts:133-134 | `trim` returns a contiguous infix of its input that neither starts nor ends with white space |
| JsStrings.TrimDropsOnlyWhitespace | packages/backend/convex/endpoints/tasks.ts:133-134 | everything `trim` removes, before and after the kept infix, is white space |
| JsStrings.TrimEmptyIff | packages/backend/convex/helpers/validation.ts:14 | `title.trim().length === 0` holds exactly when the title has no character that `trim` keeps |
| JsStrings.TrimShortens | packages/backend/convex/endpoints/tasks.ts:133-134 | the trimmed string never has more UTF-16 code units than the raw one |
| JsStrings.TrimIdempotent | packages/backend/convex/endpoints/tasks.ts:198-199 | trimming an already trimmed string changes nothing |
| JsStrings.TrimStripsPadding | packages/backend/convex/endpoints/tasks.ts:198 | white-space padding around a trimmed, non-empty string is exactly what `trim` removes |
| Schema.PriorityNameInjective | packages/backend/convex/db/tasks.ts:11 | the three priorities are stored as three distinct literals |
| Schema.StatusNameInjective | packages/backend/convex/db/tasks.ts:12 | the three statuses are stored as three distinct literals |
| Schema.IndexKey | packages/backend/convex/schema.ts:38-51 | `by_userId` files a row under one key component and every other index under two; the first component is always the row's owner |
| Schema.InRangeMeansFieldsMatch | packages/backend/convex/schema.ts:39-45 | an equality lookup on `by_userId`, `by_userId_status` or `by_userId_priority` selects exactly the rows whose owner (and status or priority) match |
| Validation.ValidateTitle | packages/backend/convex/helpers/validation.ts:13-23 | valid iff the title has a character that `trim` keeps and at most 200 raw code units; a blank title reports "Title cannot be empty" ahead of the length error; there is an error message iff the title is invalid |
| Validation.ValidateDescription | packages/backend/convex/helpers/validation.ts:28-34 | valid iff at most 2000 raw code units, with the length message otherwise; there is an error message iff the description is invalid |
| Validation.ValidateDueDate | packages/backend/convex/helpers/validation.ts:39-49 | valid iff the due date is absent or non-negative, with "Invalid due date" otherwise; there is an error message iff the due date is invalid |
| Validation.IsValidPriority | packages/backend/convex/helpers/validation.ts:54-56 | holds exactly for the strings that name a `Priority` |
| Validation.IsValidStatus | packages/backend/convex/helpers/validation.ts:61-63 | holds exactly for the strings that name a `Status` |
| Validation.TitleBoundaries | packages/backend/convex/helpers/validation.ts:14-22 | "" and "   " are empty titles; 200 characters pass; 201 fail with the length message |
| Validation.TitleCountsCodeUnits | packages/backend/convex/helpers/validation.ts:18-20 | 100 supplementary-plane characters (200 code units) pass; 101 fail |
| Validation.BlankTitleReportsEmpty | packages/backend/convex/helpers/validation.ts:14-20 | a white-space-only title longer than 200 reports the empty-title error |
| Validation.EmptyDescriptionValid | packages/backend/convex/helpers/validation.ts:28-33 | the empty description is valid |
| Validation.DueDateBoundaries | packages/backend/convex/helpers/validation.ts:40-48 | absent and 0 are valid; -1 is invalid |
| TasksDb.CreateTask | packages/backend/convex/db/tasks.ts:34-41 | inserts under a fresh id a row that copies every argument field, with `createdAt == updatedAt == now`; no other row changes, and the store stays consistent |
| TasksDb.GetTaskById | packages/backend/convex/db/tasks.ts:46-48 | the stored row for a present id, absent otherwise |
| TasksDb.CreateThenGet | packages/backend/convex/db/tasks.ts:34-48 | the created id was absent before; afterwards it reads back the argument fields and its own id; every other read is unchanged |
| TasksDb.ScanContents | packages/backend/convex/db/tasks.ts:53-59 | an equality lookup returns exactly the matching rows, each once, newest first |
| TasksDb.ListByUserExact | packages/backend/convex/db/tasks.ts:53-59 | `getTasksByUserId` returns exactly the user's rows, each once, in descending insertion order |
| TasksDb.ScanStatusIsFilter | packages/backend/convex/db/tasks.ts:64-76 | the `by_userId_status` lookup equals the `by_userId` lookup filtered by status, order kept |
| TasksDb.ScanPriorityIsFilter | packages/backend/convex/db/tasks.ts:81-93 | the `by_userId_priority` lookup equals the `by_userId` lookup filtered by priority, order kept |
| TasksDb.ListByStatusExact | packages/backend/convex/db/tasks.ts:64-76 | `getTasksByStatus` is the user's list restricted to one status: exactly the user's rows with that status, newest first |
| TasksDb.ListByPriorityExact | packages/backend/convex/db/tasks.ts:81-93 | `getTasksByPriority` is the user's list restricted to one priority: exactly the user's rows with that priority, newest first |
| TasksDb.UpdateTask | packages/backend/convex/db/tasks.ts:98-107 | overwrites exactly the supplied fields and sets `updatedAt := now`; id, owner, `createdAt`, the unsupplied fields and all other rows are unchanged; a missing id is refused |
| TasksDb.EmptyPatchRefreshes | packages/backend/convex/db/tasks.ts:103-106 | an update with no fields still refreshes `updatedAt` and changes nothing else |
| TasksDb.DeleteTask | packages/backend/convex/db/tasks.ts:112-114 | removes that id and nothing else; a missing id is refused |
| TasksDb.DeleteThenGet | packages/backend/convex/db/tasks.ts:112-114 | after a delete the id reads as absent, and every other read is unchanged |
| TasksDb.MarkTaskComplete | packages/backend/convex/db/tasks.ts:119-124 | sets status done and `updatedAt := now`; nothing else changes |
| TasksDb.MarkCompleteIsStatusPatch | packages/backend/convex/db/tasks.ts:119-124 | marking complete is the same as the patch `{ status: "done" }` |
| TasksDb.MarkCompleteTwice | packages/backend/convex/db/tasks.ts:119-124 | a second mark-complete leaves the status done and only moves `updatedAt` |
| Endpoints.AccessError | packages/backend/convex/endpoints/tasks.ts:75-89 | the access checks fail in a fixed order: no caller, then a missing task, then another owner; they pass exactly when the caller owns the task |
| Endpoints.FirstError | packages/backend/convex/endpoints/tasks.ts:114-128 | reports the message of the first failing check, and nothing exactly when all checks pass |
| Endpoints.List | packages/backend/convex/endpoints/tasks.ts:21-31 | fails with "Not authenticated" iff there is no caller; otherwise returns only the caller's tasks |
| Endpoints.ListByStatus | packages/backend/convex/endpoints/tasks.ts:36-48 | fails with "Not authenticated" iff there is no caller; otherwise returns only the caller's tasks with that status |
| Endpoints.ListByPriority | packages/backend/convex/endpoints/tasks.ts:53-65 | fails with "Not authenticated" iff there is no caller; otherwise returns only the caller's tasks with that priority |
| Endpoints.Get | packages/backend/convex/endpoints/tasks.ts:70-93 | returns the stored task exactly when the caller owns it; otherwise fails with the first failing access check |
| Endpoints.Create | packages/backend/convex/endpoints/tasks.ts:98-140 | no caller fails first; then it succeeds iff the title, description and due date are acceptable; on success it inserts one task owned by the caller, with trimmed strings, status `todo` when omitted, both timestamps `now`, and stored fields within limits |
| Endpoints.CreateReportsFirstError | packages/backend/convex/endpoints/tasks.ts:114-128 | an authenticated create fails exactly when a check fails, reporting the first of title, description, due date |
| Endpoints.Update | packages/backend/convex/endpoints/tasks.ts:145-207 | the access checks come first; for the owner it succeeds iff every supplied field is acceptable; on success only the supplied fields change (strings trimmed), `updatedAt := now`, and nothing else in the table changes |
| Endpoints.UpdateReportsFirstError | packages/backend/convex/endpoints/tasks.ts:174-194 | for the owner, update fails exactly when a supplied field is invalid, reporting the first of title, description, due date |
| Endpoints.UpdateForeignTaskUnauthorized | packages/backend/convex/endpoints/tasks.ts:164-194 | another user's task yields "Unauthorized" even when the fields are invalid |
| Endpoints.ForwardedOk | packages/backend/convex/endpoints/tasks.ts:196-202 | after validation passes, the forwarded title and description are storable |
| Endpoints.TrimmedTitleOk | packages/backend/convex/endpoints/tasks.ts:115-133 | a title that passed validation is non-empty, trimmed and at most 200 code units once trimmed |
| Endpoints.TrimmedDescriptionOk | packages/backend/convex/endpoints/tasks.ts:120-134 | a description that passed validation is trimmed and at most 2000 code units once trimmed |
| Endpoints.Remove | packages/backend/convex/endpoints/tasks.ts:212-235 | deletes exactly when the caller owns the task, and then only that task; otherwise fails with the first failing access check |
| Endpoints.MarkComplete | packages/backend/convex/endpoints/tasks.ts:240-263 | marks done exactly when the caller owns the task, and changes only its status and `updatedAt`; otherwise fails with the first failing access check |
| Endpoints.BuyMilkScenario | packages/backend/convex/endpoints/tasks.ts:131-138 | a created "Buy milk" task is todo, appears under todo, is absent under high priority, and reads as not found after removal |
| Endpoints.TrimNewTitle | packages/backend/convex/helpers/validation.ts:13-23 | "  New Title  " passes title validation, and trimming it gives "New Title" |
| Endpoints.RenameIsTrimmed | packages/backend/convex/endpoints/tasks.ts:198 | updating the title to "  New Title  " stores "New Title" |
| Server.Handle | packages/backend/convex/endpoints/tasks.ts:24-27 | every call without a caller fails with "Not authenticated"; every failed call leaves the table as it was |
| Server.QueriesLeaveStore | packages/backend/convex/endpoints/tasks.ts:21-93 | the four queries never change the table |
| Server.HandleKeepsInvariants | packages/backend/convex/endpoints/tasks.ts:98-263 | every call keeps the store consistent and leaves other users' tasks untouched; it keeps stored fields within limits; under a monotone clock it keeps `createdAt <= updatedAt` |
| Server.HandleDisclosesOnlyOwnTasks | packages/backend/convex/endpoints/tasks.ts:24-91 | no response ever contains another user's task |
| Server.ListReturnsExactlyCallersTasks | packages/backend/convex/endpoints/tasks.ts:21-31 | `list` returns exactly the caller's tasks, each once, newest first |
| Server.FilteredListsAreFilters | packages/backend/convex/endpoints/tasks.ts:36-65 | `listByStatus` and `listByPriority` are the caller's list filtered, order kept |
| Server.ForeignTaskRefused | packages/backend/convex/endpoints/tasks.ts:80-89 | `get`, `update`, `remove` and `markComplete` on another user's task fail with "Unauthorized" and leave the table as it was |

## Left out

- Convex runtime argument checks (`v.string()`, `v.union(v.literal(...))`, `v.id("tasks")`): the typed `Priority`, `Status` and `TaskId` values enforce them instead.
- Due dates are modelled as `int`. JavaScript numbers are floats, so fractional, `NaN` and infinite due dates are not modelled.
- Strings are sequences of Unicode scalar values. Lone UTF-16 surrogates cannot be represented, which Convex's string storage also rejects.
- The authentication provider is not modelled. Its answer is the `Option<UserId>` input.
- `Date.now()` is not modelled. Its reading is the `now` input, and one handler call uses one reading.
- Convex transactions, concurrent writers, reactive subscriptions and index performance are not modelled. Calls are applied one at a time.
- Store I/O failures other than writing a nonexistent document are not modelled. Neither is the wording of the store's own error message.
- Document ids are a counter, not Convex's opaque id strings. `_creationTime` is not a separate field: id order stands in for it.
- The `by_userId_dueDate` and `by_userId_createdAt` indexes have their key shape in `Schema.IndexKey`. No query in the code uses them, so no query over them is modelled.
- `helpers/constants.ts`, `helpers/index.ts`, `auth.ts`, `http.ts` and `convex.config.ts` are not part of this model: they are lookup tables, a re-export and third-party wiring.
- The web app (forms, lists, routing) is not part of this model. Neither is its date-string to timestamp conversion, which uses JavaScript `Date`.
- Server.HandleKeepsInvariants: states `createdAt <= updatedAt` only when no stored timestamp is later than `now`. It does not state that `updatedAt` strictly increases, because two writes in the same millisecond get the same value.
