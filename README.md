# User management page: a Dafny model

This project models the state logic of the `Home` page of a small
user-management client. The page lists user records held by a remote REST
collection and lets the user create, edit and delete them. One component
owns all the state:

- the list of users;
- a loading flag;
- whether the edit drawer is open;
- the drawer's mode (create or edit);
- the record being edited (`currentUser`);
- the form's field values (the draft).

Five handlers change that state: the mount-time fetch, `openDrawer`,
`closeDrawer`, `onSubmit` (reached through the form library's
`handleSubmit`, which first checks the registered field rules) and
`handleDelete`.

The model has four modules:

- `Records` holds the value types. `User` and `UserFormInputs` come from the
  source. `Response<T>` (`Success(value) | Failure`) is the outcome of an
  awaited remote call. `Request` is the call a handler sends, or
  `NoRequest`. `Toast` is the notification it shows.
- `UserList` holds the three list transformations the handlers use, as pure
  functions with lemmas: the spread-append `[...users, created]`
  (`Append`), the `users.map` merge (`UpdateById`) and the `users.filter`
  removal (`RemoveById`).
- `FormRules` holds the fixed `register` rules: name is required with a
  minimum length of 3, and email and phone are required. They are written as
  the set of fields in error.
- `HomePage` holds the state as the class `Home`, with one method per
  handler. The remote call's answer and the answer to the `window.confirm`
  prompt are parameters, so each handler is one deterministic step. Each
  method's `ensures` gives the whole new state in terms of the `UserList`
  functions. Each method returns the request it sent and the toast it
  showed. `DesignScenarios` replays the design's example scenarios through
  these contracts.

Where the design description and the code differ, the model follows the code:

- `closeDrawer` leaves `drawerMode` as it was. It does not reset the mode
  to a neutral value, and the code has no neutral mode.
- `openDrawer("create")` does not clear `currentUser`.
- The design's example create of a user named "Bo" could never be sent:
  the name rule asks for at least three characters. `DesignScenarios` shows
  this draft being held back.
- Opening the drawer in edit mode fills the form from the record and then
  calls `reset()`, so the form ends empty. The model keeps this behaviour and
  proves it (`HomePage.Home.OpenDrawer`, `FormRules.EmptyDraftRejected`).

## Model

| member | source | states |
|---|---|---|
| UserList.Append | src/pages/Home.tsx:85 | the list after a create is one longer, keeps every earlier record in order, and ends with the server-returned record |
| UserList.AppendKeepsUnique | src/pages/Home.tsx:85 | appending keeps ids unique exactly when the new record's id was not already present |
| UserList.UpdateByIdAt | src/pages/Home.tsx:92-94 | the merge keeps the length; each record with the target id keeps its id and position and takes the form's name, email and phone; every other record is untouched |
| UserList.UpdateByIdKeepsIds | src/pages/Home.tsx:92-94 | the merge changes no id: the same ids are present afterwards, and ids are unique after exactly when unique before |
| UserList.UpdateByIdAbsent | src/pages/Home.tsx:92-94 | merging for an id that no record carries leaves the list unchanged |
| UserList.UpdateByIdIdempotent | src/pages/Home.tsx:92-95 | applying the same update twice gives the same list as applying it once |
| UserList.RemoveByIdMembers | src/pages/Home.tsx:113 | a record is kept by the filter if and only if it was in the list and its id differs from the deleted id; no record with that id remains; the list does not grow |
| UserList.RemoveByIdConcat | src/pages/Home.tsx:113 | the filter distributes over concatenation, so the kept records stay in their original relative order |
| UserList.RemoveByIdAbsent | src/pages/Home.tsx:113 | deleting an id that no record carries leaves the list unchanged |
| UserList.RemoveByIdUnique | src/pages/Home.tsx:113 | with unique ids, deleting the id of the record at position k gives the list with exactly that position cut out, one shorter |
| UserList.RemoveByIdKeepsUnique | src/pages/Home.tsx:113 | the filter keeps ids unique |
| FormRules.FieldErrors | src/pages/Home.tsx:183-213 | name is in error if and only if it is shorter than 3 characters (required, then minLength 3); email and phone are in error if and only if they are empty; the draft passes if and only if none is in error |
| FormRules.EmptyDraftRejected | src/pages/Home.tsx:57-69 | the cleared draft that every open leaves behind breaks all three rules |
| HomePage.Home.constructor | src/pages/Home.tsx:22-34 | the initial state: no users, not loading, drawer closed in create mode with no target, and an empty form |
| HomePage.Home.FetchUsers | src/pages/Home.tsx:38-51 | sends one GET; loading is true while it is outstanding and false afterwards whatever the outcome; success replaces the list wholesale and shows the loaded toast; failure leaves the list unchanged and shows the fetch error |
| HomePage.Home.OpenDrawer | src/pages/Home.tsx:57-69 | sets the mode and opens the drawer; targets the given user only in edit mode with a user, otherwise keeps the previous target; the form ends empty in both modes because `reset()` runs after the `setValue` calls |
| HomePage.Home.CloseDrawer | src/pages/Home.tsx:72-75 | closes the drawer and drops the target, touching nothing else; on an already closed drawer with no target it changes nothing, so repeating it has no further effect |
| HomePage.Home.FillForm | src/pages/Home.tsx:183-212 | the registered inputs replace the draft with what the user typed |
| HomePage.Home.OnSubmit | src/pages/Home.tsx:78-104 | create mode sends one POST and appends the returned record on success; edit mode with a target sends one PUT for the target's id and merges the form into the matching records on success; edit mode with no target sends nothing and changes nothing; any failure leaves the list unchanged with the save error toast; the drawer always ends closed with no target; unique ids stay unique when a created record's id is new |
| HomePage.Home.HandleSubmit | src/pages/Home.tsx:180 | a draft that breaks a rule sends nothing, shows no toast and changes no state, so the drawer stays open; a valid draft has exactly the effect of `onSubmit` with that draft |
| HomePage.Home.HandleDelete | src/pages/Home.tsx:107-120 | a declined confirmation sends nothing and leaves the list untouched; a confirmed delete sends one DELETE; on success it filters the id out and shows the deleted toast; on failure it leaves the list unchanged and shows the delete error; ids stay unique; with unique ids and the id present the list is one shorter |

## Left out

- HTTP calls and URLs: each remote call is a `Response<T>` parameter. The
  request sent is returned as a `Request` value, and the URL and transport
  are not modelled.
- `console.error` logging: it is a diagnostic side effect with no effect on state.
- Toast display: the model returns the severity and message as a `Toast`
  and does not model the display.
- react-hook-form's internals: only the validation rules, the effect of
  `reset()` (an empty draft) and of `setValue` are modelled. The error
  messages shown under the inputs, and the clearing of errors on reset, are
  not modelled.
- The browser's `type="email"` format check on the email input is host
  behaviour, not code in this repository, so it is not modelled.
- Asynchronous interleaving: each handler runs atomically. Races between
  in-flight requests, and stale responses that arrive after the user has
  moved on, are not modelled, and neither is React's stale-closure reading of
  `users`.
- JSX rendering, the table, the styling and `SkeletonLoader` are
  presentation with no state logic.
- Ids are unbounded integers. A JavaScript `number` id could be fractional
  or `NaN` (and `NaN !== NaN`), which the model does not capture.
- String lengths count Dafny characters. JavaScript's `length` counts UTF-16
  code units, so the two differ for characters outside the Basic
  Multilingual Plane.
