# VCTM students directory: the list filter and the admin gate

The directory is a single React component (`App`) that lists student records
fetched from a REST service, filters them by name, and opens dialogs to add,
edit and delete records. Updates and deletes go through an *admin gate*: a
second dialog that asks for a password before the request is sent. This
project models the component's logic in Dafny:

- `records.dfy` (module `Records`): a student as the server lists it (`_id`
  plus six text fields), the editor's draft, and the one-field update that
  `handleChange` performs.
- `search.dfy` (module `Search`): the table's filter on line 27. The
  lowercased name must contain the lowercased search text. `Includes`
  mirrors `String.prototype.includes` and is proved equal to "occurs at
  some index".
- `handlers.dfy` (module `Handlers`): the component's state variables as one
  value (`AppState`), each handler as one transition (`Step`), and any
  sequence of handlers as `Run`. The network is an append-only log of
  `Request`s (`Get`, `Post`, `Put`, `Delete`). Each GET is recorded in the
  log, and the list it returns is a parameter of the event that sends it.
  The lemmas cover the gate invariant, the log only growing, and "every PUT
  or DELETE is paid for by a distinct gate opening". They also state the edit,
  delete-then-cancel and stale-password flows as lemmas over concrete event
  sequences, for any start state.
- `component.dfy` (module `Component`): the component as a class `App`. Its
  fields are the state variables and the request log. There is one method per
  handler. Each method says field by field what the handler changes and leaves
  the object in the state `Handlers.Step` gives.

Points where the model follows the code exactly:

- `if (editId)` uses JavaScript truthiness, so an empty `_id` takes the create
  path (`Handlers.Truthy`, proved in `Handlers.EmptyIdTakesCreatePath`).
- `${adminDialog.studentId}` prints `null` as `"null"` (`Handlers.UrlSegment`).
  Under the gate invariant this case cannot be reached
  (`Handlers.ConfirmClosedGateSendsNoMutation`).
- `handleAdminAction` with no pending action sends no PUT and no DELETE. It
  still resets the gate, sends a GET and closes the editor.
- `handleOpen(student)` copies the whole listed record, including `_id`, into
  `form`. PUT and POST bodies therefore carry the id whenever it was set.

Three behaviours a reader might expect to be different, where the model
follows the code:

- Cancelling the gate does not clear the typed password. `CancelKeepsPassword`
  shows that a later confirm re-sends it.
- A successful create or update does not discard the draft: `form` keeps its
  value until the editor is opened again.
- After an update, `editId` stays set.

## Model

| member | source | states |
|---|---|---|
| `Records.WithField` | App-VCTM.js:44-46 | the named field takes the new value and every other field keeps its old one |
| `Records.WithFieldSameValue` | App-VCTM.js:44-46 | writing a field's own value back leaves the record unchanged |
| `Records.WithFieldOverwrite` | App-VCTM.js:44-46 | two edits of one field: the later value wins |
| `Records.WithFieldCommute` | App-VCTM.js:44-46 | edits to different fields can be applied in either order |
| `Search.Lower` | App-VCTM.js:27 | lowercasing maps `A`-`Z` to `a`-`z`, leaves every other character alone, and never yields an upper-case letter |
| `Search.LowerStr` | App-VCTM.js:27 | ASCII lowercasing keeps the length and lowercases each character in place |
| `Search.LowerStrIdempotent` | App-VCTM.js:27 | lowercasing a lowercased string changes nothing |
| `Search.Includes` | App-VCTM.js:27 | `includes` never holds for a text longer than the name, and always holds for the empty text |
| `Search.Matches` | App-VCTM.js:27 | under ASCII lowercasing, the filter callback rejects a search text longer than the name |
| `Search.MatchesIff` | App-VCTM.js:27 | a student matches exactly when the lowercased search text occurs at some index of the lowercased name |
| `Search.IncludesIff` | App-VCTM.js:27 | `includes` holds exactly when the search text occurs at some index of the name (both directions) |
| `Search.IncludesEmpty` | App-VCTM.js:27 | the empty search text is contained in every name |
| `Search.Filter` | App-VCTM.js:27 | the result is no longer than the list, and a student is in it exactly when it is listed and its name matches |
| `Search.FilterIsSubsequence` | App-VCTM.js:27 | the filtered rows keep the list's order (a subsequence) |
| `Search.FilterCount` | App-VCTM.js:27 | a matching student appears as many times as in the list, a non-matching one never |
| `Search.FilterAppend` | App-VCTM.js:27 | filtering two concatenated lists gives the two filtered lists concatenated |
| `Search.FilterEmptySearch` | App-VCTM.js:27 | an empty search shows every student, in order |
| `Search.FilterIdempotent` | App-VCTM.js:27 | filtering the filtered list again changes nothing |
| `Search.FilterIgnoresQueryCase` | App-VCTM.js:27 | the case of the search text does not matter |
| `Search.FilterAnnBob` | App-VCTM.js:27 | among Ann and Bob, "an" shows Ann only and "" shows both |
| `Handlers.Init` | App-VCTM.js:6-12 | the initial state: no students, editor closed, no edit id, gate closed, blank form, nothing sent |
| `Handlers.Visible` | App-VCTM.js:27 | a row is shown exactly when the student is listed and matches the current search |
| `Handlers.Step` | App-VCTM.js:18-138 | one handler only appends to the log, at most two requests; any PUT or DELETE it appends comes from Confirm with a pending action and leaves the gate closed; the list changes only together with a GET as the newest request |
| `Handlers.Run` | App-VCTM.js:18-74 | a run of n handlers appends at most 2n requests |
| `Handlers.InitValid` | App-VCTM.js:11 | the initial gate satisfies the gate invariant |
| `Handlers.StepPreservesValid` | App-VCTM.js:29-74 | every handler keeps the invariant: an open gate has an action and a target, and a closed gate is the reset value |
| `Handlers.RunPreservesValid` | App-VCTM.js:29-74 | any sequence of handlers keeps the gate invariant |
| `Handlers.RunAppendsOnly` | App-VCTM.js:18-74 | requests already sent stay in the log, in order, whatever handlers follow |
| `Handlers.StepAccounting` | App-VCTM.js:48-74 | one handler sends at most one PUT/DELETE, and only when it is Confirm on an open gate, which it closes; mutations sent plus gates open never grow by more than the gate openings of that step |
| `Handlers.RunAccounting` | App-VCTM.js:48-74 | over any run, PUTs and DELETEs sent plus gates still open never exceed the gate openings (update submits and delete clicks) |
| `Handlers.NoMutationWithoutGate` | App-VCTM.js:48-74 | from a closed gate, a run that never opens the gate sends no PUT and no DELETE |
| `Handlers.ConfirmSendsPending` | App-VCTM.js:64-74 | confirming an open gate appends exactly the pending PUT or DELETE for the gate's student and password, then one GET |
| `Handlers.EmptyIdTakesCreatePath` | App-VCTM.js:29-56 | editing a listed student whose `_id` is empty and submitting appends POST(that student's draft) then GET, leaves the gate as it was, reloads the list and closes the editor |
| `Handlers.ConfirmClosedGateSendsNoMutation` | App-VCTM.js:64-74 | in a valid state, confirming a closed gate appends only the GET, so no PUT or DELETE with a `null` target is ever sent |
| `Handlers.CreateNeverGates` | App-VCTM.js:48-56 | submitting without an edit id never opens the gate; it appends exactly POST(form) then GET |
| `Handlers.EditFlow` | App-VCTM.js:29-74 | open on a student, edit the email, submit, type the password, confirm: exactly one PUT to that id with the new email and password, then one GET; the list is the reload, and gate, password and editor are reset |
| `Handlers.DeleteThenCancel` | App-VCTM.js:59-138 | a delete click followed by cancelling the gate sends nothing and keeps the list |
| `Handlers.CancelKeepsPassword` | App-VCTM.js:59-138 | after cancel the typed password survives: delete a, type pw, cancel, delete b, confirm sends DELETE(b, pw) then GET |
| `Component.App.Filtered` | App-VCTM.js:27 | the rows the table shows are exactly the listed students that match the current search |
| `Component.App.constructor` | App-VCTM.js:6-12 | the object starts with the `useState` initial values and an empty log |
| `Component.App.FetchStudents` | App-VCTM.js:18-21 | appends one GET and replaces the list with its result; nothing else changes |
| `Component.App.HandleSearch` | App-VCTM.js:23-25 | stores the search text; nothing else changes and nothing is sent |
| `Component.App.HandleOpen` | App-VCTM.js:29-38 | with a student, the form is that record and the edit id is its `_id`; without one, the form is blank and the edit id is null; the editor opens and nothing is sent |
| `Component.App.HandleClose` | App-VCTM.js:40-42 | closes the editor; nothing else changes |
| `Component.App.HandleChange` | App-VCTM.js:44-46 | only the named field of the form changes; the form's id and all other state are kept |
| `Component.App.HandleSubmit` | App-VCTM.js:48-57 | with a truthy edit id, only the gate opens (update, that id) and nothing is sent; otherwise POST(form) then GET are appended, the list is the reload and the editor closes, with the gate untouched |
| `Component.App.HandleDelete` | App-VCTM.js:59-62 | opens the gate for deleting that id; nothing is sent |
| `Component.App.SetAdminPassword` | App-VCTM.js:135 | stores the password verbatim; nothing else changes |
| `Component.App.HandleAdminAction` | App-VCTM.js:64-74 | appends the PUT or DELETE that the pending action calls for (or none), then GET; resets the gate and password, sets the list to the reload, closes the editor |
| `Component.App.CancelAdminDialog` | App-VCTM.js:131-138 | resets the gate only: no request, and password, form, edit id, editor and list are kept |
| `Component.EditEmail` | App-VCTM.js:29-74 | the edit flow by method calls on the object: exactly one PUT with the new email and the password, then one GET |

## Left out

- Rendering (App-VCTM.js:76-144): the JSX and MUI components only display state and wire the handlers modelled above.
- HTTP transport: axios, the fixed `http://localhost:5000/api/students` URLs and status codes are not modelled. A request is a log entry, and a GET's result is a method parameter.
- The mount effect (App-VCTM.js:14-16) is framework lifecycle. It is modelled only as a call to `FetchStudents` after construction (`Load` in `Handlers`).
- Async timing and React's batching: `fetchStudents()` is not awaited at lines 54 and 72. Each handler is modelled as one atomic step, and its reload result is applied before the handler returns. In the code the gate stays open while the awaited PUT or DELETE at lines 66 and 68 is in flight, because `setAdminDialog` runs only after the `await`. A second Confirm click in that window sends a second PUT or DELETE for one gate opening. `Handlers.RunAccounting` and `Handlers.NoMutationWithoutGate` therefore hold only for atomic handlers.
- Failure paths: a rejected `await` at lines 19, 53, 66 or 68 ends the handler without a catch. The model assumes every request succeeds.
- `Search.Lower`: only ASCII letters are lowercased. Unicode case mapping in `toLowerCase` is not modelled.
- `Search.LowerStr`: its length-preserving, per-index contract holds of ASCII lowercasing only. JavaScript's `toLowerCase` can lengthen a string (`"\u0130"` becomes `"i\u0307"`) and maps some letters by context (a word-final `Σ` becomes `ς`).
- `Search.Matches`: "a search text longer than the name is rejected" holds of the model only. Under full Unicode lowercasing the lowercased name can be longer than the name, so a name such as "İ" matches the two-character search "i̇".
- Records carry only `_id` and the six edited fields. Other properties the server may add are not modelled, although `setForm(student)` would copy them into PUT bodies.
- `handleOpen`'s `if (student)` is modelled as present/absent (`Option`). No other falsy argument is considered.
