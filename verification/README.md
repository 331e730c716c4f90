# Func-Tech task store, in Dafny

Func-Tech is a small task tracker. Functional-team and technical-team tasks are
entered through two forms, get identifiers such as `FT01` and `TT07`, and are
shown in two tables. The browser client (`script.js`) keeps the tasks in an
array saved to `localStorage`. The server (`server.js`) keeps a second array
behind `/api/tasks`, saved to `tasks.json`.

This project models the store logic in those two files. The browser part
covers:

- identifier allocation (`getNextTaskId`);
- the array part of creating, clearing and editing a task;
- the filters that fill the two tables;
- the storage key of an attached file, and reading the name back from it;
- the MIME type read back from a data URI.

The server part covers:

- validation and record construction in the POST handler;
- the DELETE filter;
- the name multer gives an uploaded file.

Each array is the whole state, and every operation is a pure function from the
old array to the new one. The clock and the random generator are parameters.

The files are:

- `wrappers.dfy`: `Option`, `Result`, and the one exception kind (`TypeError`).
- `js_text.dfy`: the JavaScript built-ins the store relies on: `startsWith`,
  `parseInt(_, 10)`, `toString`, `padStart`, and `split`/`join` on one
  character.
- `tasks.dfy`: JavaScript values, the client's task object (a property map)
  and `findIndex` on the identifier.
- `allocator.dfy`: `getNextTaskId`.
- `codecs.dfy`: the attachment key `taskDoc_<time>_<name>` and its
  `split('_')[2]`, and the MIME type of a data URI.
- `client_store.dfy`: create, the two views, clear (as written and as
  intended) and edit.
- `server_store.dfy`: POST, DELETE and the upload file name.

A JavaScript value is modelled as undefined, null, a boolean, an integer
number, a string or an object. This keeps the code's truthiness tests,
`typeof` checks and `===` comparisons exact. The client's task is a map from
property names to such values, because any form field, `taskId` included,
can write any property. The server's record has a fixed shape of eleven
properties.

## Model

| member | source | states |
|---|---|---|
| `Tasks.FindIndex` | script.js:178 | `None` exactly when no task has the identifier; otherwise a task that has it, with no earlier one that does |
| `IdAllocator.PrefixFor` | script.js:91 | functional tasks use `FT`, technical tasks `TT`; both prefixes are two characters |
| `IdAllocator.MaxSuffixIsUpperBound` | script.js:92-103 | `maxId` after the scan is at least the number of every task that contributes one; a task contributes only if it has a non-empty string identifier with the category prefix and a suffix that `parseInt` reads as a number |
| `IdAllocator.MaxSuffixIsAttained` | script.js:92-103 | a positive `maxId` is the number of some live task of the category, so `maxId` is exactly the largest contribution, or 0 when none is positive |
| `IdAllocator.FormatTaskId` | script.js:105-106 | the identifier starts with the prefix; its suffix is all digits and reads back as the number; it is the decimal rendering padded with `0` to two characters and never cut (`07`, `123`) |
| `IdAllocator.NextTaskId` | script.js:90-107 | the new identifier has the category prefix, its suffix reads back as `maxId + 1`, and it equals no live task's identifier |
| `IdAllocator.NumberedIdIsFresh` | script.js:95-106 | any prefixed identifier whose suffix reads above `maxId` belongs to no live task |
| `IdAllocator.MaxSuffixAppendNothing` | script.js:97-101 | storing a task that contributes nothing leaves `maxId` unchanged |
| `IdAllocator.MaxSuffixAppendAbove` | script.js:99-101 | storing a task whose number exceeds `maxId` raises `maxId` to that number |
| `IdAllocator.OtherCategoryIgnores` | script.js:91-97 | an identifier of one category contributes nothing to the other category's scan |
| `IdAllocator.AllocationAdvances` | script.js:92-106 | storing the allocated identifier moves its category's `maxId` up by exactly one and leaves the other category's unchanged |
| `IdAllocator.AllocationAfterAllocation` | script.js:92-106 | once the allocated identifier is stored, the next allocation in the category reads as `maxId + 2` |
| `JsText.ToDecimal` | script.js:106 | `toString` of a non-negative integer is a non-empty digit string that reads back as the number, `0` for zero and without a leading zero otherwise |
| `JsText.PadStart` | script.js:106 | `padStart` gives length `max(width, length)`, keeps the string as a suffix and fills only on the left |
| `JsText.ParseIntReadsLeadingDigits` | script.js:98 | `parseInt` reads the leading run of digits and ignores what follows it |
| `JsText.ParsePaddedDecimal` | script.js:98-106 | reading back a zero-padded decimal rendering with `parseInt` gives the number |
| `JsText.Split` | script.js:72 | `split` on one character gives at least one piece; no piece holds the separator, and joining the pieces gives the string back |
| `JsText.SplitJoin` | script.js:72 | `split` undoes `join` when no piece holds the separator |
| `JsText.SplitFirstPiece` | script.js:80 | the first piece of a `split` is the text before the first separator |
| `DocCodec.DocKey` | script.js:43 | the attachment key starts with `taskDoc_` and ends with `_` followed by the file name |
| `DocCodec.DocKeyInjective` | script.js:43 | the clock reading and the file name can both be read back from the key, so keys built at different times or for different names differ |
| `DocCodec.DocKeyNameRoundTrip` | script.js:72 | `key.split('_')[2]` gives back the file name cut at its first `_`, so it is the name exactly when the name has no `_` |
| `DocCodec.MimeOf` | script.js:80 | the MIME read fails exactly when the part before the first `,` has no `:`; a result holds no `,`, `:` or `;` |
| `DocCodec.MimeRoundTrip` | script.js:80 | the MIME type of `data:<mime>;base64,<payload>` is read back exactly, whatever the payload |
| `ClientStore.EntryWrites` | script.js:38-47 | an entry throws exactly when it is text under the file entry's name; the file entry writes exactly the name, type and storage key: the file's name, the file's type and the key built from the clock and the file name; any other entry writes only its own key, text as it is and a file as an object |
| `ClientStore.BuildFields` | script.js:38-48 | building fails exactly when some entry throws; otherwise the result holds exactly the properties some entry writes |
| `ClientStore.LastWriterWins` | script.js:38-48 | the last entry that writes a property decides its value |
| `ClientStore.AddTask` | script.js:50-52 | exactly one task is appended and the earlier tasks are unchanged; its `taskId` is the allocated one, and every other property comes from the form |
| `ClientStore.SuccessiveCreationsCount` | script.js:50-52 | two creations in one category in a row get the numbers `maxId + 1` and `maxId + 2` |
| `ClientStore.InView` | script.js:140 | the filter throws exactly when a task's identifier is truthy and not a string; otherwise it keeps exactly the tasks with a string identifier that has the prefix |
| `ClientStore.View` | script.js:139-141 | a view fails exactly when some task cannot be filtered, that is, when some task's identifier is truthy and not a string; a view never has more tasks than the array |
| `ClientStore.ViewMembers` | script.js:139-141 | a view that does not fail holds exactly the array's tasks that have a string identifier with the category prefix |
| `ClientStore.ViewConcat` | script.js:139-141 | the view of a concatenation is the concatenation of the views, so array order and repeats are kept |
| `ClientStore.ViewSingle` | script.js:139-141 | a one-task array shows that task exactly when it is listed |
| `ClientStore.ViewsDisjoint` | script.js:139-140 | no task appears in both the `FT` view and the `TT` view |
| `ClientStore.CreatedTaskIsListed` | script.js:139-141 | a created task is listed in its own category and not in the other |
| `ClientStore.RemoveAt` | script.js:180 | `splice(i, 1)` leaves everything before and after position `i` in order, and removes exactly one occurrence of the element |
| `ClientStore.ClearAsWritten` | script.js:174-187 | an unknown id changes nothing; otherwise the first match is spliced out. The key then passed for deletion is the successor's key, and when the match was last the read throws |
| `ClientStore.Clear` | script.js:178-182 | the intended clear: an unknown id changes nothing; otherwise the first match is removed and its own attachment key is deleted; it never throws |
| `ClientStore.ClearKeepsOthersDocuments` | script.js:180-181 | when attachment keys are distinct, the intended clear deletes no remaining task's attachment |
| `ClientStore.ClearAsWrittenDeletesSuccessorDocument` | script.js:180-181 | clearing `FT01` from `[FT01, FT02]` deletes `FT02`'s attachment key |
| `ClientStore.ClearAsWrittenCrashesOnLast` | script.js:180-182 | clearing the only task throws after the removal, before the save |
| `ClientStore.ClearedNumberIsReissued` | script.js:92-105 | clearing the only functional task `FT01` empties the array in memory (and then throws), after which the next functional identifier is `FT` followed by `01` again |
| `ClientStore.FirstIdentifier` | script.js:105-106 | on an empty array, the first identifier of a category is its prefix followed by `01` |
| `ClientStore.ApplyEdits` | script.js:244-259 | a property no input writes keeps its value; the loop throws exactly when a text input is named `taskDocumentation` |
| `ClientStore.EditLastWriterWins` | script.js:244-259 | when the loop does not throw, a property takes the value of the last input that writes it: a text input's text, or the first picked file's name, type or new storage key |
| `ClientStore.SaveEdit` | script.js:237-268 | an unknown id changes nothing; otherwise only the first match is replaced, with the same length and every other task in place; the edit throws exactly when the task is found and a text input is named `taskDocumentation` |
| `ClientStore.EditKeepsIdentifier` | script.js:257-262 | an edit with no input named `taskId` keeps the edited task's identifier |
| `ServerStore.MakeRecord` | server.js:58-70 | the nine listed body properties are copied as they are, and any other property is dropped; the document name and key are both the stored file name, or both `null` without an upload |
| `ServerStore.PostStatus` | server.js:54-75 | a POST answers 400 exactly when `taskId`, `project` or `taskName` is missing or empty, and 201 otherwise |
| `ServerStore.Post` | server.js:51-76 | the request is refused exactly when `taskId`, `project` or `taskName` is missing or empty, and the store is then unchanged; otherwise the returned record is the one appended |
| `ServerStore.DuplicateIdAccepted` | server.js:54-72 | a POST reusing a stored identifier is accepted, and both records keep that identifier |
| `ServerStore.Delete` | server.js:89-94 | the records kept are exactly those whose `taskId` is not the parameter |
| `ServerStore.DeleteSingle` | server.js:91 | one record is kept exactly when its identifier differs |
| `ServerStore.DeleteConcat` | server.js:91 | deleting from a concatenation deletes from each part, keeping relative order |
| `ServerStore.DeleteUnknownIsNoop` | server.js:91-93 | the store is unchanged exactly when no record has the identifier |
| `ServerStore.DeleteHandler` | server.js:89-94 | DELETE answers 204 whether or not a record was removed; the store is left as it is exactly when no record has the identifier |
| `ServerStore.DeleteIdempotent` | server.js:91 | deleting twice is the same as deleting once |
| `ServerStore.PostThenDelete` | server.js:72-94 | deleting a freshly posted record by its identifier gives what deleting alone gives |
| `ServerStore.UploadName` | server.js:26-30 | the stored file name is exactly `<time>-<random>_<original>`: it ends with `_` and the original name, before its first `_` it is `<time>-<random>`, and nothing lies between |
| `ServerStore.UploadNameInjective` | server.js:27-28 | the time, random value and original name can all be read back from the stored name |

## Left out

- The DOM is not modelled: table rows, buttons, `confirm`, `form.reset` and `createFileLink` (script.js:110-171, 189-234, 284-290). So is `editTask`'s positional cell-to-property mapping. The edited row is taken as the sequence of inputs it holds.
- The contents of `localStorage`, `FileReader`, `atob`, `Blob` and `URL.createObjectURL` are not modelled (script.js:23-31, 58-87, 270-282). Reading and writing the array is a JSON round trip taken as the identity. The deleted key is returned rather than removed from a store.
- Express, multer, body-parser and cors are not modelled, nor the `fs` reads and writes, GET `/api/tasks` (a plain read of the array) and the download route (server.js:1-49, 78-87, 96-98).
- `Date.now()` and `Math.round(Math.random() * 1E9)` are parameters, given as natural numbers.
- Numbers are integers. Floating point, and the precision JavaScript loses beyond 2^53, are not modelled.
- IdAllocator.NextTaskId: freshness assumes exact integers. In JavaScript a suffix above 2^53 (9007199254740992) is not always read exactly, and for some `maxId` from 2^53 on (2^53 itself among them) `maxId + 1` rounds back to `maxId`, so the identifier repeats. From `1e21` on, `toString` also switches to exponent notation.
- ServerStore.Post: a rejected request's uploaded file is already on disk and is not removed. The model does not track the upload directory.
- ServerStore.Delete: the server does not delete the attachment of a removed record, and neither does the model.
- ClientStore.SaveEdit: replacing a document does not delete the old one from `localStorage`. The asynchronous save of the new file is not modelled.
- ClientStore.AddTask: the asynchronous `saveFileToLocalStorage` call is not modelled. An empty file input still yields a `File`, so the key is built from its empty name.

## Behaviour of the code worth knowing

The model follows the code in each case:

- `server.js` stores the `taskId` the client sends. It neither allocates identifiers nor checks that they are unique (`ServerStore.DuplicateIdAccepted`).
- `server.js` requires `taskId`, `project` and `taskName` for every task, technical tasks included. No field is required per category.
- The client computes the next identifier from the live tasks only, so a cleared highest number is handed out again (`ClientStore.ClearedNumberIsReissued`).
- The server's DELETE removes every record with the identifier, while the client's clear removes only the first.

## Findings

| source | as written | input that shows it | evidently intended | confidence | as-written member | corrected member |
|---|---|---|---|---|---|---|
| script.js:180-181 | after `tasks.splice(taskIndex, 1)`, the key to delete is read from `tasks[taskIndex]`, which is now the next task; when the cleared task was last, that read is on `undefined` and throws before `saveTasks` | `[FT01 (key taskDoc_1_a.pdf), FT02 (key taskDoc_2_b.pdf)]`, clear `FT01`: `taskDoc_2_b.pdf` is deleted; `[FT01]`, clear `FT01`: TypeError, nothing saved | read the cleared task's own key before the splice, then save | not executed | `ClientStore.ClearAsWritten` (with `ClientStore.ClearAsWrittenDeletesSuccessorDocument`, `ClientStore.ClearAsWrittenCrashesOnLast`) | `ClientStore.Clear` (with `ClientStore.ClearKeepsOthersDocuments`) |
