# Lynk task board: a verified model of its form and dialog state

Lynk is a task-management web application. Its own logic sits in three React components:

- the "Add New Task" dialog, which edits a new task's title, description and checklist;
- the "Edit Task" dialog, which edits a local, nullable copy of an existing task;
- the task board page, whose handlers validate the title, call the hosted task store and then reset the form or close the edit modal.

The model has one Dafny module per component, plus shared modules:

- `Checklist`: the three copy-on-write checklist updaters both dialogs use. These are append an empty item, set the text at an index, and remove at an index by filtering positions. A missing list (`checklist_items ?? []`) counts as empty.
- `AddTask`: the form, as pure updater functions and a class `AddTaskDialog` with the fields `newTask` and `isOpen`.
- `UpdateTask`: the task row, updaters over `Option<Task>` that map a missing task to a missing task, and a class `UpdateTaskDialog` with the field `currentEditingTask`.
- `MainPage`: a class `Home` with the fields `newTask`, `tasks`, `editingTask` and `isUpdateModalOpen`, and one method per handler.
- `Text`: the blank-title test. `Trim` follows ECMAScript's `String.prototype.trim` over the WhiteSpace and LineTerminator characters in ECMA-262. A lemma shows that `Trim(s)` is empty exactly when every character of `s` is whitespace.
- `Remote` and `Wrappers`: the abstract outcomes of outside calls, and `Option`.

Each call into the task store or into a parent's callback becomes a parameter holding its outcome:

- a store call gives `Status` (`Ok` or `Err`), or `Fetch` for a select;
- an awaited callback gives `Settled` (`Resolved` or `Rejected`).

A handler's outputs say which request it made. Some handlers start a refresh without awaiting it. Those handlers report whether they started one, and the refresh's reply arrives later through `Home.FetchTasks`.

## Model

| member | source | states |
|---|---|---|
| `Checklist.Append` | src/components/addtaskdialog.tsx:22-27 | the list grows by exactly one; earlier items are unchanged; the new last item is `{text: "", completed: false}` |
| `Checklist.SetText` | src/components/addtaskdialog.tsx:29-37 | length unchanged; every completion flag unchanged; every item other than `index` unchanged; an in-range item gets the new text; an out-of-range index (negative or at least the length) leaves the list identical |
| `Checklist.KeepOthers` | src/components/addtaskdialog.tsx:41 | the position filter `filter((_, i) => i !== index)`, also used at src/components/updatetaskdialog.tsx:64; the result is one shorter exactly when some slot has position `index`, and `KeepOthersRemovesIndex` says which items it keeps |
| `Checklist.KeepOthersRemovesIndex` | src/components/addtaskdialog.tsx:41 | filtering positions `i !== index` gives the list with the slot at `index` cut out, or the same list when no slot has that index |
| `Checklist.RemoveAt` | src/components/addtaskdialog.tsx:39-44 | in range: length n-1, earlier items keep their positions, later items shift down by one; out of range: the list is unchanged |
| `Checklist.RemoveAppended` | src/components/updatetaskdialog.tsx:51-67 | removing the item just appended gives back the original list |
| `Checklist.SetTextRestore` | src/components/addtaskdialog.tsx:29-37 | setting an item's text and then its old text back restores the list |
| `Checklist.SetTextLastWins` | src/components/addtaskdialog.tsx:29-37 | of two text edits at one index, only the second one counts |
| `AddTask.WithAddedItem` | src/components/addtaskdialog.tsx:22-27 | title and description unchanged; the checklist is present, one item longer, with the same prefix and an empty unchecked last item |
| `AddTask.WithItemText` | src/components/addtaskdialog.tsx:29-37 | title and description unchanged; only the text of the item at an in-range index changes; an out-of-range index changes nothing |
| `AddTask.WithoutItem` | src/components/addtaskdialog.tsx:39-44 | title and description unchanged; exactly the item at an in-range index is gone; an out-of-range index changes nothing |
| `AddTask.AddToMissingChecklist` | src/components/addtaskdialog.tsx:25 | a missing checklist counts as empty, so adding to it gives a one-item list |
| `AddTask.EditMissingChecklist` | src/components/addtaskdialog.tsx:31-41 | a text edit or a removal on a missing checklist gives an empty, present list |
| `AddTask.AddTaskDialog.constructor` | src/components/addtaskdialog.tsx:19-20 | the form starts empty and the dialog starts closed |
| `AddTask.AddTaskDialog.SetOpen` | src/components/addtaskdialog.tsx:55 | `onOpenChange` sets `isOpen` and leaves the form alone |
| `AddTask.AddTaskDialog.SetTitle` | src/components/addtaskdialog.tsx:83 | only the title changes |
| `AddTask.AddTaskDialog.SetDescription` | src/components/addtaskdialog.tsx:95-97 | only the description changes |
| `AddTask.AddTaskDialog.HandleAddChecklistItem` | src/components/addtaskdialog.tsx:22-27 | the form becomes `WithAddedItem` of the old form; `isOpen` is unchanged; the checklist stays present |
| `AddTask.AddTaskDialog.HandleNewChecklistItemChange` | src/components/addtaskdialog.tsx:29-37 | the form becomes `WithItemText` of the old form; `isOpen` is unchanged |
| `AddTask.AddTaskDialog.HandleRemoveNewChecklistItem` | src/components/addtaskdialog.tsx:39-44 | the form becomes `WithoutItem` of the old form; `isOpen` is unchanged |
| `AddTask.AddTaskDialog.HandleSubmit` | src/components/addtaskdialog.tsx:46-51 | the current form goes to `onAddTask`; once that resolves, the form is reset to empty title, description and checklist and the dialog closes; a rejection leaves both as they were |
| `UpdateTask.ChangeItemText` | src/components/updatetaskdialog.tsx:40-49 | a missing task stays missing; otherwise every field but the checklist is unchanged, length is preserved, only an in-range item's text changes, and an out-of-range index is a no-op |
| `UpdateTask.AddItem` | src/components/updatetaskdialog.tsx:51-59 | a missing task stays missing; otherwise every other field is unchanged and exactly one empty unchecked item is appended after the unchanged old items |
| `UpdateTask.RemoveItem` | src/components/updatetaskdialog.tsx:61-67 | a missing task stays missing; otherwise every other field is unchanged and exactly the indexed item is removed, or nothing when the index is out of range |
| `UpdateTask.RemoveItemDeletesOne` | src/components/updatetaskdialog.tsx:61-67 | an in-range removal shortens the list by one and keeps every other item in its relative order |
| `UpdateTask.RemoveAddedItem` | src/components/updatetaskdialog.tsx:51-67 | removing the item just added gives back the task; a missing checklist comes back present and empty |
| `UpdateTask.UpdateTaskDialog.constructor` | src/components/updatetaskdialog.tsx:34 | the local copy starts as the `editingTask` prop |
| `UpdateTask.UpdateTaskDialog.SyncEditingTask` | src/components/updatetaskdialog.tsx:36-38 | a new `editingTask` prop replaces the local copy |
| `UpdateTask.UpdateTaskDialog.SetTitle` | src/components/updatetaskdialog.tsx:95 | a missing copy stays missing; otherwise only the title changes |
| `UpdateTask.UpdateTaskDialog.SetDescription` | src/components/updatetaskdialog.tsx:108 | a missing copy stays missing; otherwise only the description changes |
| `UpdateTask.UpdateTaskDialog.HandleEditingChecklistItemChange` | src/components/updatetaskdialog.tsx:40-49 | the copy becomes `ChangeItemText` of the old copy |
| `UpdateTask.UpdateTaskDialog.HandleAddEditingChecklistItem` | src/components/updatetaskdialog.tsx:51-59 | the copy becomes `AddItem` of the old copy |
| `UpdateTask.UpdateTaskDialog.HandleRemoveEditingChecklistItem` | src/components/updatetaskdialog.tsx:61-67 | the copy becomes `RemoveItem` of the old copy |
| `UpdateTask.UpdateTaskDialog.HandleSave` | src/components/updatetaskdialog.tsx:69-74 | with no copy, nothing is sent and the dialog asks for no close; otherwise the copy goes to `onUpdateTask`, and the dialog asks its parent to close exactly when that call resolves; the copy is not changed |
| `Text.TrimStart` | src/components/mainpage.tsx:36 | half of `title.trim()` (also at line 65): the result is a suffix of the input; what it drops is all whitespace; it is empty or starts with a non-whitespace character |
| `Text.TrimEnd` | src/components/mainpage.tsx:36 | the other half of `title.trim()` (also at line 65): the result is a prefix of the input; what it drops is all whitespace; it is empty or ends with a non-whitespace character |
| `Text.Trim` | src/components/mainpage.tsx:36 | `title.trim()`, also called at line 65, as `TrimEnd` after `TrimStart`: a contiguous piece of the title, with only whitespace cut off before and after it and no whitespace left at either end; `TrimEmptyIffBlank` says when it is empty |
| `Text.TrimEmptyIffBlank` | src/components/mainpage.tsx:36 | `!title.trim()` (here and at line 65) holds if and only if every character of the title is whitespace |
| `MainPage.Home.constructor` | src/components/mainpage.tsx:18-21 | empty form, empty list, no task in the modal, and the modal closed |
| `MainPage.Home.FetchTasks` | src/components/mainpage.tsx:23-31 | fetched rows replace the list; a fetch error leaves the list unchanged |
| `MainPage.Home.HandleSubmit` | src/components/mainpage.tsx:33-50 | a blank title makes no insert, no refresh and no state change; otherwise the form is inserted; an insert error leaves the form filled in with no refresh; success resets the form to an empty title and description and starts a refresh; the task list is never touched |
| `MainPage.Home.HandleDeleteTask` | src/components/mainpage.tsx:52-60 | the delete names the given id; a refresh starts exactly when the delete succeeds; no state changes |
| `MainPage.Home.HandleUpdateTask` | src/components/mainpage.tsx:62-83 | no task in the modal: a no-op. A blank title makes no update call and keeps the modal and its task. Otherwise the update sends the task's title and description, filtered by its id. An update error leaves the modal and its task unchanged with no refresh. Success closes the modal, clears the task and starts a refresh |
| `MainPage.Home.OpenUpdateModal` | src/components/mainpage.tsx:157-160 | a card's "Update" button puts that task in the modal and opens it |
| `MainPage.Home.SetUpdateModalOpen` | src/components/mainpage.tsx:180 | `onOpenChange` and "Cancel" set only the modal flag and keep the edited task |
| `MainPage.Home.SetDraftTitle` | src/components/mainpage.tsx:110 | only the form's title changes |
| `MainPage.Home.SetDraftDescription` | src/components/mainpage.tsx:124 | only the form's description changes |
| `MainPage.Home.SetEditingTitle` | src/components/mainpage.tsx:194 | no task in the modal stays no task; otherwise only its title changes |
| `MainPage.Home.SetEditingDescription` | src/components/mainpage.tsx:207 | no task in the modal stays no task; otherwise only its description changes |

## Left out

- Task-store calls (select, insert, update, delete) are network calls. Each is reduced to its outcome (`Status` or `Fetch`). The server-side ordering of the select by `created_at` (src/components/mainpage.tsx:24) is part of the store, so `FetchTasks` takes the rows as delivered.
- Console logging and the `alert` on a blank title are I/O and have no effect on state.
- Concurrency between handlers is not modelled. Each un-awaited refresh is a separate `FetchTasks` call, and its reply may arrive in any order relative to other events.
- Rendering, including the `if (!currentEditingTask) return null` early return and date formatting, is markup with no state.
- JavaScript numbers: indices are modelled as integers. A fractional index, which no caller passes, would also address no item. `order_index` is an uninterpreted `real`, and `id` is an integer.
- Checklist items are assumed to be objects, as the declared `ChecklistItem[]` type says, so the model reads the truthiness test `if (copy[index])` as "index is in range". A `null` or empty-string element is falsy, so the source skips the edit. A non-empty legacy string is truthy, and the source replaces it with an object holding one key per character plus `text` and no `completed` field. The model assumes neither occurs.
- The drag-and-drop reorder keys, task-completion toggles and checklist-item toggles are not in these components. src/components/sortablecard.tsx only forwards the drag event, so the key arithmetic is not part of this model.
- Authentication, the session header, the landing page, the layout, the list container (pure prop forwarding) and the backend client setup are not part of this model.
- The add dialog's submit does no title validation and has no error branch of its own. The model shows this as written: only a rejected `onAddTask` stops the reset.
