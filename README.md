# Task-list client: a Dafny model

This project models the client side of a small task-list web application in
which users sign in with email and password and keep a personal list of
todos in a hosted row store. The client holds the list in memory and keeps it
current from two sources: the replies of its own create, update and delete
calls, and realtime change notifications (INSERT, UPDATE, DELETE) for the
`todos` table. Around that list sit three small form state machines: the
add-task form, the inline title editor of one row, and the sign-in/sign-up
form.

Modules:

- `Todos` (todos.dfy): the row type `Todo`, the reply of an awaited remote
  call (`Reply`: resolved value or rejection with an optional message) and the
  requests the client issues.
- `Strings` (strings.dfy): JavaScript's `String.prototype.trim` over the full
  set of JavaScript white-space and line-terminator code points.
- `Reconciler` (reconciler.dfy): the pure list updaters: `ApplyEvent` (owner
  filter on `new ?? old`, then prepend / replace-by-id / filter-by-id),
  `ReplaceById`, `RemoveById`, and the lemmas about them.
- `View` (view.dfy): class `TodoView` with the `todos` list and the `loading`
  flag, the initial-fetch effect (class `LoadEffect` is the effect's
  `isMounted` flag) and the four action handlers.
- `Input` (input.dfy), `Item` (item.dfy), `Auth` (auth.dfy): classes
  `TodoInput`, `TodoItem` and `AuthView` with their fields and handlers.
- `Wiring` (wiring.dfy): the task view's create handler plugged into the
  add-task form.

Remote calls are never made: each handler receives how its awaited call
settles (`Reply`) and returns the request it issued and how its own promise
settles. The task view's create handler catches a failure and always
resolves; its other handlers, the add-task form's submit and the title
editor's save have no catch, so a rejection reaches their caller. The title
editor's key handler does not await the save, so how that save settles is not
passed on. The state observable while a
handler is suspended at its await (busy flag, cleared message) is returned
through out-parameters.

The model follows the code as written. Where the application's design
description and the code differ, the code wins:

- The design description says an INSERT of an id already present replaces it
  in place. The code always prepends (`TodoView.jsx:47`). A row created by
  `handleAdd` and then echoed by its own INSERT event therefore appears twice
  (`Reconciler.EchoedAddDuplicates`).
- The design description says an UPDATE for an unknown id falls back to an
  insert. The code drops it (`TodoView.jsx:49`, `Reconciler.UpdateUnchangedIff`).
- The design description says the merge converges whatever the arrival
  order. The initial fetch replaces the list wholesale, so an UPDATE that
  arrives while the fetch is in flight is lost whenever the fetched rows
  predate it (`View.UpdateDuringLoadLost`); the same UPDATE after the fetch
  is kept (`View.UpdateAfterLoadKept`, `Reconciler.UpdateBeforeLoadLost`).
  An INSERT and a DELETE of the same row also do not commute
  (`Reconciler.InsertDeleteOrderMatters`). UPDATEs for different ids, DELETEs,
  and an UPDATE with a DELETE do commute (`Reconciler.UpdatesCommute`,
  `DeletesCommute`, `UpdateDeleteCommute`); two UPDATEs of the same id do
  not, the later one wins.
- The add-task form keeps the typed text when `onAdd` rejects. But the task
  view's `handleAdd` catches every error, so in the assembled application the
  text is cleared even when the create fails (`Wiring.SubmitNewTodo`).
- The title editor compares the untrimmed draft with the current title. A
  draft that is the title plus trailing white space still triggers a rename,
  to the trimmed title (`Item.TrailingSpaceStillRenames`).

## Model

| member | source | states |
|---|---|---|
| `Strings.Leading` | todo_frontend/src/components/TodoInput.jsx:13 | the count of leading white space: every counted character is white space and the next one is not |
| `Strings.Trailing` | todo_frontend/src/components/TodoInput.jsx:13 | the count of trailing white space: every counted character is white space and the one before is not |
| `Strings.Trim` | todo_frontend/src/components/TodoInput.jsx:13 | `trim()` is empty exactly when the string is all white space, and a non-empty result neither starts nor ends with white space |
| `Strings.TrimSplits` | todo_frontend/src/components/TodoInput.jsx:13 | the input is the cut-off leading white space, the trimmed text and the cut-off trailing white space, so trimming removes only white space |
| `Strings.TrimPadded` | todo_frontend/src/components/TodoItem.jsx:13 | trimming a text padded only with white space gives back the text when the text has no surrounding white space (uniqueness of `trim`) |
| `Strings.TrimIdempotent` | todo_frontend/src/components/TodoItem.jsx:13 | trimming twice is trimming once |
| `Strings.TrimIgnoresAppendedSpace` | todo_frontend/src/components/TodoItem.jsx:13 | appending white space does not change the trimmed text |
| `Reconciler.ReplaceById` | todo_frontend/src/components/TodoView.jsx:49 | `map` replacement: same length, every element with the id becomes the row, every other element stays at its position; an absent id leaves the list unchanged |
| `Reconciler.RemoveById` | todo_frontend/src/components/TodoView.jsx:51 | `filter` removal: no element with the id remains and the length drops by the number of elements that had it |
| `Reconciler.ApplyEvent` | todo_frontend/src/components/TodoView.jsx:39-55 | an event whose `new ?? old` record is missing or belongs to another user, or of another type, leaves the list unchanged; INSERT grows it by one with the new row at the head and the old list as tail; UPDATE keeps the length and replaces exactly the elements with the new row's id; DELETE removes every element with the old row's id |
| `Reconciler.CountIdPositive` | todo_frontend/src/components/TodoView.jsx:51 | the list holds the id exactly when its count is positive |
| `Reconciler.RemoveAbsent` | todo_frontend/src/components/TodoView.jsx:51 | filtering by an id the list does not hold returns the list unchanged |
| `Reconciler.RemoveMembers` | todo_frontend/src/components/TodoView.jsx:51 | a row is kept by the filter exactly when it was in the list and has another id |
| `Reconciler.RemoveKeepsOrder` | todo_frontend/src/components/TodoView.jsx:51 | the filter's result is a subsequence of the list: relative order is kept |
| `Reconciler.RemoveDistributes` | todo_frontend/src/components/TodoView.jsx:51 | filtering a concatenation filters each part and concatenates, so order across parts is kept |
| `Reconciler.ReplaceTwice` | todo_frontend/src/components/TodoView.jsx:49 | replacing by the same id and row twice is replacing once |
| `Reconciler.RemoveTwice` | todo_frontend/src/components/TodoView.jsx:51 | filtering by the same id twice is filtering once |
| `Reconciler.ReplaceRemoveCommute` | todo_frontend/src/components/TodoView.jsx:49-51 | replacing by one id and filtering by any id commute when the row keeps its id |
| `Reconciler.ReplacesCommute` | todo_frontend/src/components/TodoView.jsx:49 | replacements for two different ids commute |
| `Reconciler.RemovesCommute` | todo_frontend/src/components/TodoView.jsx:51 | filters by two ids commute |
| `Reconciler.ReplaceKeepsDistinct` | todo_frontend/src/components/TodoView.jsx:49 | replacing by a row that keeps the id keeps identifiers unique |
| `Reconciler.RemoveKeepsDistinct` | todo_frontend/src/components/TodoView.jsx:51 | filtering keeps identifiers unique |
| `Reconciler.PrependDistinct` | todo_frontend/src/components/TodoView.jsx:47 | prepending keeps identifiers unique exactly when the row's id is not yet in the list |
| `Reconciler.RemoveKeepsNewestFirst` | todo_frontend/src/components/TodoView.jsx:51 | filtering keeps a newest-first list newest-first |
| `Reconciler.ReplaceKeepsNewestFirst` | todo_frontend/src/components/TodoView.jsx:49 | replacing with a row of the same creation time keeps a newest-first list newest-first |
| `Reconciler.UpdateIdempotent` | todo_frontend/src/components/TodoView.jsx:48-49 | applying the same UPDATE twice gives the list applying it once gives |
| `Reconciler.DeleteIdempotent` | todo_frontend/src/components/TodoView.jsx:50-51 | applying the same DELETE twice gives the list applying it once gives |
| `Reconciler.InsertTwiceDuplicates` | todo_frontend/src/components/TodoView.jsx:46-47 | INSERT is not idempotent: an accepted INSERT applied twice puts the row in twice, the id count grows by two and ids are no longer unique |
| `Reconciler.EchoedAddDuplicates` | todo_frontend/src/components/TodoView.jsx:47 | a row prepended by the create handler and echoed by its own INSERT event ends up in the list twice |
| `Reconciler.UpdateUnchangedIff` | todo_frontend/src/components/TodoView.jsx:48-49 | an accepted UPDATE leaves the list unchanged exactly when every element with that id already equals the new row; an UPDATE for an absent id is dropped |
| `Reconciler.DeleteKeepsOthersInOrder` | todo_frontend/src/components/TodoView.jsx:50-51 | an accepted DELETE keeps exactly the rows with another id, in their original order |
| `Reconciler.DeleteOfUnknownIdNoOp` | todo_frontend/src/components/TodoView.jsx:50-51 | a DELETE for an id the list does not hold leaves the list unchanged |
| `Reconciler.UpdateDeleteCommute` | todo_frontend/src/components/TodoView.jsx:48-51 | an UPDATE and a DELETE give the same list in either arrival order |
| `Reconciler.UpdatesCommute` | todo_frontend/src/components/TodoView.jsx:48-49 | two UPDATEs for different ids give the same list in either arrival order |
| `Reconciler.DeletesCommute` | todo_frontend/src/components/TodoView.jsx:50-51 | two DELETEs give the same list in either arrival order |
| `Reconciler.InsertDeleteOrderMatters` | todo_frontend/src/components/TodoView.jsx:46-51 | INSERT and DELETE of one row do not commute: delete-then-insert keeps it, insert-then-delete drops it |
| `Reconciler.UpdateBeforeLoadLost` | todo_frontend/src/components/TodoView.jsx:44-49 | an UPDATE applied to the empty list changes nothing, while the same UPDATE applied to fetched rows holding an older version of its row changes them and leaves the updated row in the list |
| `Reconciler.ConcernsIff` | todo_frontend/src/components/TodoView.jsx:40-42 | an event concerns the user exactly when its `new` record is present and owned by the user, or is absent and its `old` record is present and owned by the user |
| `Reconciler.FilterPrefersNew` | todo_frontend/src/components/TodoView.jsx:40-42 | the owner filter inspects `new` whenever it is present: an event whose `new` record has another owner is ignored, whatever its `old` record says |
| `View.LoadEffect.constructor` | todo_frontend/src/components/TodoView.jsx:18 | each run of the fetch effect starts mounted |
| `View.LoadEffect.Cleanup` | todo_frontend/src/components/TodoView.jsx:31 | the effect's cleanup clears its mounted flag |
| `View.TodoView.constructor` | todo_frontend/src/components/TodoView.jsx:13-14 | the view starts with an empty list and loading set |
| `View.TodoView.StartLoad` | todo_frontend/src/components/TodoView.jsx:17-22 | starting the fetch sets loading, issues the fetch for the user and leaves the list as it is |
| `View.TodoView.FinishLoad` | todo_frontend/src/components/TodoView.jsx:22-29 | a resolved fetch replaces the list wholesale and loading ends, only while mounted; a failed fetch leaves the list as it was and still ends loading while mounted |
| `View.TodoView.OnChange` | todo_frontend/src/components/TodoView.jsx:39-55 | a change notification turns the list into `ApplyEvent` of the old list |
| `View.TodoView.HandleAdd` | todo_frontend/src/components/TodoView.jsx:65-74 | the create request carries the user and the title; a created row is prepended, a failure leaves the list unchanged, and the handler always resolves |
| `View.TodoView.HandleToggle` | todo_frontend/src/components/TodoView.jsx:77-80 | the update request flips the completion flag; only a resolved update replaces the elements with the todo's id; a failure leaves the list unchanged and propagates |
| `View.TodoView.HandleRename` | todo_frontend/src/components/TodoView.jsx:83-86 | the update request sets the new title; only a resolved update replaces the elements with that id; a failure leaves the list unchanged and propagates |
| `View.TodoView.HandleDelete` | todo_frontend/src/components/TodoView.jsx:89-92 | the delete request names the todo's id; only a confirmed delete filters the list; a failure leaves it unchanged and propagates |
| `View.UpdateDuringLoadLost` | todo_frontend/src/components/TodoView.jsx:17-55 | an UPDATE delivered while the initial fetch is in flight, followed by a fetch whose rows predate it, leaves exactly the fetched rows, without the updated row, and loading over |
| `View.UpdateAfterLoadKept` | todo_frontend/src/components/TodoView.jsx:17-55 | the same UPDATE delivered after the fetch has landed, when the fetched rows hold its id, changes the list and leaves the updated row in it |
| `Input.AddArgument` | todo_frontend/src/components/TodoInput.jsx:13-14 | nothing is sent exactly when the title is all white space; otherwise the argument is the trimmed, non-blank title |
| `Input.AddArgumentIgnoresTrailingSpace` | todo_frontend/src/components/TodoInput.jsx:13 | trailing white space typed after a title does not change what is sent |
| `Input.TodoInput.constructor` | todo_frontend/src/components/TodoInput.jsx:8-9 | the form starts with an empty title, not busy |
| `Input.TodoInput.Type` | todo_frontend/src/components/TodoInput.jsx:32 | typing sets the title |
| `Input.TodoInput.HandleAdd` | todo_frontend/src/components/TodoInput.jsx:11-22 | a blank title makes no call and changes nothing; otherwise `onAdd` is called once with the trimmed title while busy, the title is cleared only if the call resolves, busy ends false on both paths, and the handler settles as `onAdd` did (resolves when no call is made) |
| `Item.SaveTitle` | todo_frontend/src/components/TodoItem.jsx:13-19 | no rename exactly when the draft is blank or equals the current title untrimmed; a rename carries the trimmed, non-blank draft |
| `Item.TrailingSpaceStillRenames` | todo_frontend/src/components/TodoItem.jsx:13 | a draft that is the title plus trailing white space still asks for a rename, to the trimmed current title |
| `Item.TodoItem.constructor` | todo_frontend/src/components/TodoItem.jsx:8-10 | a row starts out of edit mode with the todo's title as draft, not busy |
| `Item.TodoItem.Receive` | todo_frontend/src/components/TodoItem.jsx:7-9 | a new `todo` prop replaces the todo but not the draft |
| `Item.TodoItem.Edit` | todo_frontend/src/components/TodoItem.jsx:65 | the Edit button enters edit mode |
| `Item.TodoItem.Cancel` | todo_frontend/src/components/TodoItem.jsx:59 | the Cancel button leaves edit mode without a call |
| `Item.TodoItem.Type` | todo_frontend/src/components/TodoItem.jsx:40 | typing sets the draft |
| `Item.TodoItem.Save` | todo_frontend/src/components/TodoItem.jsx:12-24 | a blank or unchanged draft leaves edit mode without a call; otherwise `onRename(id, trimmed draft)` is called while busy, edit mode ends only if it resolves, busy ends false on both paths, and the save settles as `onRename` did (resolves when no call is made) |
| `Item.TodoItem.KeyDown` | todo_frontend/src/components/TodoItem.jsx:41-44 | Enter saves, Escape leaves edit mode without a call, any other key changes nothing |
| `Auth.Flip` | todo_frontend/src/components/AuthView.jsx:95 | the toggle always yields the other mode |
| `Auth.FlipTwice` | todo_frontend/src/components/AuthView.jsx:95 | toggling twice restores the mode |
| `Auth.SubmitMessage` | todo_frontend/src/components/AuthView.jsx:21-45 | the message after a submit is never blank; it is a success exactly when both credentials are non-empty and the call succeeds, its text then the sign-in text for sign-in and the sign-up text for sign-up; an empty credential gives the missing-credentials error; a failure gives the error's text or `Authentication failed.` |
| `Auth.AuthView.constructor` | todo_frontend/src/components/AuthView.jsx:10-14 | the form starts in sign-in mode with empty credentials, not busy, with a blank message |
| `Auth.AuthView.TypeEmail` | todo_frontend/src/components/AuthView.jsx:63 | typing sets the email |
| `Auth.AuthView.TypePassword` | todo_frontend/src/components/AuthView.jsx:75 | typing sets the password |
| `Auth.AuthView.HandleSubmit` | todo_frontend/src/components/AuthView.jsx:18-49 | no call exactly when a credential is empty, busy then untouched; otherwise the call for the mode is made while busy with the message cleared, and busy ends false on both paths; the final message is `SubmitMessage` |
| `Auth.AuthView.ToggleMode` | todo_frontend/src/components/AuthView.jsx:95 | the toggle flips the mode and clears the message |
| `Wiring.SubmitNewTodo` | todo_frontend/src/components/TodoView.jsx:96 | submitting the add form of a task view: a blank title sends nothing; otherwise the create request is sent, a created row is prepended, and the title is cleared even when the create fails; the form's submit always resolves |

## Left out

- The remote service functions (fetch, add, update, delete) and the
  construction of the service client: their outcomes are the `Reply`
  parameters of the handlers. The newest-first order of the fetched list comes
  from the remote query; the model only proves which list operations keep it.
- The realtime channel's lifecycle (subscribe, remove on cleanup) and the
  event loop's interleaving of async completions: changes are taken as inputs,
  one call at a time; the commutation lemmas say which orders matter.
- The exact shape of payloads produced by the realtime library (for instance
  whether `new` is an empty object rather than null on DELETE, or whether
  `old` carries `user_id`): the model reads `new` and `old` as present or null.
- Reconciler.ApplyEvent: requires that an event passing the owner filter
  carries `new` for INSERT and UPDATE and `old` for DELETE. The source
  dereferences these without a check; an UPDATE or DELETE lacking them throws
  on a non-empty list, and an INSERT lacking `new` prepends null. Those
  failure paths are not modelled.
- Session handling, sign-out and the theme toggle of the application shell,
  the theme toggle component, all rendering, CSS and accessibility attributes,
  `console.error` logging and `window.location` (its origin is a parameter of
  `HandleSubmit`).
- The toggle and delete buttons of a row only forward the todo to the task
  view's `HandleToggle` and `HandleDelete`. They have no state of their own.
- Disabled controls while busy are rendering attributes; the model does not
  forbid calling a handler while busy.
- Row identifiers are modelled as integers and the creation timestamp as an
  integer; JavaScript's `===` on them is equality.
