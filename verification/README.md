# Post list and editor — a Dafny model

This project models the state container behind the blog-post administration screen
(`ListPost`). That screen lists posts, searches them by title, edits one draft post in a
modal form, and toggles a post's published status. The model has three parts:

- `text.dfy` (module `Text`) — JavaScript's `trim` and the notion of a blank string. The
  whitespace set is ECMAScript's: WhiteSpace, every Zs space separator, and LineTerminator.
- `list_post.dfy` (module `ListPost`):
  - the `Post` record;
  - the save validator `Validate`;
  - the request each handler chooses (`SaveRequest`, `ToggleRequest`, `SearchRequest`);
  - the backend's PATCH effect, `PatchStatus`;
  - the component's state as the class `Editor`. Its fields are `posts`, `show`, `isEdit`,
    `editId`, `searchTerm`, `notFound` and `post`. Its methods are the handlers.

Handlers return the backend requests they issue as values of `Req`. Whether an awaited
request succeeded is a `succeeded: bool` parameter. A load response is applied by
`Editor.ApplyLoadResult`. The date string and the object URL made for a chosen file are
opaque parameters.

`Editor.Valid()` is the modal invariant: edit mode holds exactly when an edit id is
recorded, edit mode implies the modal is open, and a closed modal holds the reset draft
(every way of closing it goes through `resetForm`). `Editor.Mode()` reads the flags as the
lifecycle `Closed | Creating | Editing(id)`. Every handler keeps the invariant.

Two behaviours of the code worth noting:
- the image field is blank-checked after trimming, like title and content;
- `handleSetStatus` reloads only when the PATCH did not fail, or when no PATCH was sent,
  because the reload sits after the awaited PATCH inside the `try`.

## Model

| member | source | states |
|---|---|---|
| `Text.TrimStart` | client/src/pages/ListPost.tsx:107 | the result is the longest suffix not starting with whitespace; the dropped prefix is blank |
| `Text.TrimEnd` | client/src/pages/ListPost.tsx:107 | the result is the longest prefix not ending with whitespace; the dropped suffix is blank |
| `Text.BlankHeadDropped` | client/src/pages/ListPost.tsx:107 | dropping one leading whitespace character keeps the result a suffix of the string behind a blank prefix |
| `Text.BlankTailDropped` | client/src/pages/ListPost.tsx:107 | dropping one trailing whitespace character keeps the result a prefix of the string before a blank suffix |
| `Text.Trim` | client/src/pages/ListPost.tsx:107 | `trim()` is a slice of the string between a blank prefix and a blank suffix; it is empty iff the string is blank; a non-empty result starts and ends with non-whitespace |
| `Text.BlankEndsRemoved` | client/src/pages/ListPost.tsx:80 | trimming the start and then the end leaves a slice between blank ends, which is empty exactly when every character is whitespace |
| `ListPost.DefaultPost` | client/src/pages/ListPost.tsx:48-62 | the reset draft has id 0, empty title and image, empty content, the given date, and status true |
| `ListPost.WithField` | client/src/pages/ListPost.tsx:100-102 | `{...post, [name]: v}` sets exactly the named field (content becomes present) and keeps every other field |
| `ListPost.FindIndex` | client/src/pages/ListPost.tsx:140 | `find` yields the first element satisfying the predicate, and nothing iff no element does |
| `ListPost.Validate` | client/src/pages/ListPost.tsx:106-117 | blank-field error iff title, image or content is missing or blank; otherwise duplicate error iff some post has the identical title and an id other than `editId`; otherwise no error |
| `ListPost.SaveRequest` | client/src/pages/ListPost.tsx:119-130 | nothing is sent iff a field is blank or the title is a duplicate; otherwise PUT to `editId` when editing with an id, else POST of the draft |
| `ListPost.FindById` | client/src/pages/ListPost.tsx:140 | `posts.find((e) => e.id === id)` finds the first post with that id, and nothing iff no post has it |
| `ListPost.ToggleRequest` | client/src/pages/ListPost.tsx:138-145 | no PATCH iff no local post has the id; otherwise PATCH with the negated status of the first post with that id |
| `ListPost.SearchRequest` | client/src/pages/ListPost.tsx:78-87 | a full load iff the keyword is blank; otherwise a title-like query with the untrimmed keyword |
| `ListPost.PatchStatus` | client/src/pages/ListPost.tsx:142-144 | after the PATCH the backend's records with that id carry the new status; every other record and field is unchanged |
| `ListPost.UnchangedTitleNotDuplicate` | client/src/pages/ListPost.tsx:110-112 | when editing post p, keeping p's title (which no other post has) never raises the duplicate error; a non-blank draft then validates |
| `ListPost.CreateModeDuplicate` | client/src/pages/ListPost.tsx:110-112 | with no edit id, a non-blank draft is a duplicate iff any post has the same title |
| `ListPost.PutExactlyWhenEditing` | client/src/pages/ListPost.tsx:126 | under the modal invariant, a valid save is a PUT exactly in edit mode; the `editId !== null` test never decides |
| `ListPost.SaveExampleRejected` | client/src/pages/ListPost.tsx:110-115 | with a post titled "A" loaded, a new draft titled "A" is rejected and nothing is sent |
| `ListPost.SaveExampleAccepted` | client/src/pages/ListPost.tsx:119-130 | with a post titled "A" loaded, a complete new draft titled "B" is sent as a POST |
| `ListPost.ToggleTwiceAlternates` | client/src/pages/ListPost.tsx:138-145 | toggling, applying the PATCH, and toggling again requests the original status |
| `ListPost.ToggleAfterPatch` | client/src/pages/ListPost.tsx:140-144 | after the backend sets status s on the records with an id, the next toggle of that id asks for the negation of s |
| `ListPost.DoubleToggleRestores` | client/src/pages/ListPost.tsx:138-145 | with unique ids, two toggles leave the backend's collection exactly as it was |
| `ListPost.PatchBackRestores` | client/src/pages/ListPost.tsx:142-144 | with unique ids, patching a record's status and then patching it back to its old status restores the collection |
| `ListPost.Editor.constructor` | client/src/pages/ListPost.tsx:18-37 | initial state: no posts, modal closed, not editing, empty search, not-found false, default draft |
| `ListPost.Editor.Mount` | client/src/pages/ListPost.tsx:74-76 | first display issues a full load |
| `ListPost.Editor.ResetForm` | client/src/pages/ListPost.tsx:48-62 | the draft becomes the default draft; nothing else changes |
| `ListPost.Editor.HandleClose` | client/src/pages/ListPost.tsx:39-44 | modal closed, edit mode off, no edit id, default draft; posts, search and not-found untouched |
| `ListPost.Editor.HandleShow` | client/src/pages/ListPost.tsx:46 | the modal is open; from closed it opens in create mode on the reset draft |
| `ListPost.Editor.HandleEdit` | client/src/pages/ListPost.tsx:152-157 | the draft is the given post, edit mode records its id, the modal is open; posts untouched |
| `ListPost.Editor.HandleChange` | client/src/pages/ListPost.tsx:95-104 | with the modal open (the inputs live in its form), only the named draft field changes: to the first file's object URL for a file input with files, else to the input's value; the invariant is kept |
| `ListPost.Editor.ApplyLoadResult` | client/src/pages/ListPost.tsx:64-68 | posts become the response, and not-found is set iff the response is empty |
| `ListPost.Editor.HandleSearch` | client/src/pages/ListPost.tsx:78-93 | the search term becomes the keyword, and the request is the one `SearchRequest` chooses |
| `ListPost.Editor.HandleSave` | client/src/pages/ListPost.tsx:119-136 | an invalid draft sends nothing and changes nothing; otherwise the chosen PUT or POST is sent, and on success the modal closes, the draft resets and a reload follows |
| `ListPost.Editor.HandleSetStatus` | client/src/pages/ListPost.tsx:138-150 | sends the chosen PATCH, then a reload unless a sent PATCH failed; component state unchanged |
| `ListPost.EditThenCancel` | client/src/pages/ListPost.tsx:39-44 | editing then cancelling leaves posts unchanged, the draft at its default, and the modal closed |
| `ListPost.ClearSearchRestoresAll` | client/src/pages/ListPost.tsx:78-89 | a non-blank search requests the title-like load, clearing it then requests the full load, and applying that response shows the full collection |

## Left out

- The router (`client/src/routers/Routers.tsx`) is a static table from two paths to two views, with no logic.
- HTTP is not modelled: axios, the `http://localhost:8080` URLs, response parsing, and the `try`/`catch` blocks that only log. A failed load is modelled by not calling `ApplyLoadResult`.
- Asynchronous ordering is not modelled. This includes the out-of-order search responses, where the last response to resolve wins. React's batching of state setters is also left out: handlers run as sequential updates.
- `URL.createObjectURL` and `new Date()` are browser APIs. The object URL is the parameter `fileUrls`, and the `D/M/YYYY` date is the parameter `today`.
- The `alert` text of the two validation messages is not modelled; `ValidationError` names which one is raised. `console.log` and all JSX rendering are left out.
- The delete button and the status `<select>` have no handlers, so there is nothing to model.
- `ListPost.Editor.HandleChange`: the field name is limited to the form's three inputs (title, image, content), not to any property name a change event could carry.
- `ListPost.PatchStatus` is the backend's PATCH behaviour as the client relies on it. The backend itself is not part of this model.
