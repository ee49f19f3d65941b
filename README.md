# Friendship-book editor: a Dafny model of its page, history and permission logic

The application is a collaborative "Freundschaftsbuch" (friendship book)
editor. A React front end lets signed-in users draw pages on a fabric.js
canvas. An Express back end keeps books, pages and per-book roles in
Postgres. This project models the parts of it whose behaviour can be
stated and proves what they promise:

- **The book editor's page map** (`book_editor.dfy`, module `BookEditor`).
  The class `Editor` holds `tempPages` (page number to canvas data; Null
  for a page added but not drawn), `pages` (the rows last fetched),
  `currentPage`, `currentPageData`, and whether the canvas has mounted.
  Its methods are the handlers:
  - page change, adding a page and the first-page auto-creation;
  - previous and next navigation, and the confirmed delete;
  - the fetch that rebuilds `tempPages` from the server's rows, and the mount effect that re-runs it;
  - the save loop;
  - the page order and sheet layout of the PDF export.

  The server appears as the book's page table, a map from page number to
  canvas data. Server replies are method inputs. Page numbers are sparse and
  never renumbered: a save upserts each non-null entry under its own number,
  and a delete leaves a gap.
- **The drawing surface** (`fabric_canvas.dfy`, module `FabricCanvas`):
  - the undo/redo history as a pair of bounded stacks, with `SaveState`, `Undo` and `Redo`;
  - the right-button pan and context-menu gesture, as the class `PanGesture`;
  - clearing a page down to its page-boundary objects, as `Scene.ClearCanvas`.
- **The REST back end's tables and routes** (`server.dfy`, module `Server`).
  The books, book_permissions and pages tables are maps keyed as their
  UNIQUE constraints key them. Each route body is a method of `Database`.
  The role each route requires is a function.
- **Authentication and authorisation** (`auth.dfy`, module `Auth`):
  - bearer-token extraction by splitting the Authorization header on spaces;
  - the verifyToken outcomes;
  - checkPermission's comparison of role ranks (viewer 1, editor 2, admin 3).
- **The account settings form** (`user_settings.dfy`, module `UserSettings`):
  - the password and username guard chains;
  - the condition for the availability lookup;
  - the form state that `handleChange` and the update handlers change.
- **The profile summary** (`user_profile.dfy`, module `UserProfile`):
  - the "recent activity" selection (saved books, newest first, at most five);
  - the book count;
  - the missing and invalid date texts of `formatDate`.

`common.dfy` (module `Common`) holds what the server and the editor share:
- `Option`;
- the canvas value `Canvas` and the row `PageRow`;
- ascending order of a set of page numbers (`Ascending`);
- the ordered rows of a page table (`RowsOf`) and the page map built from rows (`PageMap`).

The back end, the editor's save loop and the export all walk page numbers
in ascending order: ORDER BY page_number in the back end;
`Object.entries` on array-index keys (0 to 2^32 - 2) in the save loop
(section 10.1.11.1 of ECMA-262, OrdinaryOwnPropertyKeys); `sort((a, b) => a - b)`
in the export.

## Model

| member | source | states |
|---|---|---|
| Common.Ascending | frontend/src/pages/BookEditor.js:232 | the page numbers of a set, each listed once and none invented |
| Common.AscendingSorted | frontend/src/pages/BookEditor.js:232 | that list is strictly increasing |
| Common.AscendingComplete | frontend/src/pages/BookEditor.js:232 | every page number of the set appears in it |
| Common.Greatest | frontend/src/pages/BookEditor.js:175 | `Math.max` of a non-empty set of page numbers: a member of the set no smaller than any other |
| Common.RowsOf | backend/server.js:304-307 | the listed rows are exactly the book's pages, one row per page number, each with its stored data, in strictly ascending page_number order |
| Common.PageMap | frontend/src/pages/BookEditor.js:116-119 | the map built from rows has exactly the rows' page numbers as keys |
| Common.PageMapOfDistinctRows | frontend/src/pages/BookEditor.js:116-119 | with no repeated page number, each row's data is what the map holds for it |
| Common.PageMapOfRows | frontend/src/pages/BookEditor.js:113-120 | rebuilding the page map from the rows the pages route lists gives back the page table exactly: nothing lost, nothing invented |
| Auth.Split | backend/auth.js:10 | `split(' ')` yields at least one field |
| Auth.JoinSplit | backend/auth.js:10 | joining the fields back with the separator gives the header again (Split loses nothing) |
| Auth.SplitFieldsHaveNoSeparator | backend/auth.js:10 | no field contains the separator |
| Auth.BearerToken | backend/auth.js:10-11 | a token exists only when a header does; it is non-empty and contains no space |
| Auth.BearerTokenOfHeader | backend/auth.js:10 | for any scheme word (never checked), the token is the second space-separated field, whether or not more fields follow |
| Auth.NoSpaceNoToken | backend/auth.js:10-11 | a header without a space carries no token |
| Auth.VerifyToken | backend/auth.js:9-20 | 401 "No token provided" without a token; 401 "Invalid token" when verification fails; authenticated exactly when both succeed, as the decoded user |
| Auth.CheckPermission | backend/auth.js:31-41 | 403 "No access to this book" without a permission row; allowed if and only if rank(user role) >= rank(required role); otherwise 403 "Insufficient permissions" |
| Auth.CheckPermissionFollowsScale | backend/auth.js:36-38 | access is granted exactly when both roles are known and the caller's role dominates the required one on viewer < editor < admin |
| Auth.UnknownRoleRefused | backend/auth.js:38-41 | a role name outside viewer, editor and admin, on either side, is refused |
| Auth.AdminPassesEveryCheck | backend/auth.js:36-38 | admin passes every known requirement |
| Auth.CheckPermissionMonotone | backend/auth.js:36-38 | a role that passes a requirement passes every lower one |
| Server.RequiredRoles | backend/server.js:202-315 | reading pages needs viewer; saving and deleting pages need editor; archiving, settings and deleting a book need admin |
| Server.OrDefault | backend/server.js:185 | a request field with a default: the value when present and non-empty, else the fallback |
| Server.RegisterCheck | backend/server.js:31-34 | registration proceeds if and only if username, email and password are all present and non-empty; otherwise 400 "Missing required fields" |
| Server.Database.BookPages | backend/server.js:304-307 | the page numbers of a book are exactly those of its rows, with their data |
| Server.Database.GetPages | backend/server.js:302-313 | denied callers get the 403; otherwise the reply is exactly the book's rows in ascending page_number order, or 500 "Failed to fetch pages" |
| Server.Database.PutPage | backend/server.js:315-361 | after the editor check, the row (book, page) holds the new data, other rows are unchanged, and last_saved_at is stamped, both or neither (rollback); 500 "Failed to save page" on failure |
| Server.Database.DeletePage | backend/server.js:283-297 | removes exactly the row (book, page); no other page is renumbered |
| Server.Database.DeleteAllPages | backend/server.js:267-281 | removes exactly the book's pages |
| Server.Database.DeleteBook | backend/server.js:238-265 | on success the book, all its pages and all its permissions are gone; a failing statement keeps what earlier statements did |
| Server.Database.VisibleBooks | backend/server.js:166-173 | exactly the books the caller has a permission row for whose archived flag equals (archived === 'true'), each with the caller's role |
| Server.Database.ListBooks | backend/server.js:164-178 | the visible books, or 500 "Failed to fetch books" |
| Server.Database.CreateBook | backend/server.js:180-200 | a fresh id; page size and orientation default to 'A4' and 'portrait'; the creator becomes admin and sees the book; a failing second insert leaves the committed book record (with the same defaults) under the fresh id, every other book unchanged, and no permission row |
| Server.Database.ArchiveBook | backend/server.js:202-217 | only the archived flag of that book changes |
| Server.Database.UpdateSettings | backend/server.js:220-235 | the four settings are overwritten as given and last_saved_at is stamped |
| BookEditor.SendWrites | frontend/src/pages/BookEditor.js:89-97 | PUTs every non-null entry under its own page number in ascending order; it fails at the lowest rejected non-null page, after all lower ones were applied; otherwise every non-null entry is upserted |
| BookEditor.WrittenKeepsNumbers | frontend/src/pages/BookEditor.js:89-97 | upserting is not a renumbering: written entries keep their numbers, other pages keep number and data, and no number appears from nowhere |
| BookEditor.UpsertsAreWrites | frontend/src/pages/BookEditor.js:89-97 | PUTting the keys one by one is the same as upserting all the non-null entries of that prefix |
| BookEditor.NewPageNumber | frontend/src/pages/BookEditor.js:174-176 | greater than every tempPages key and loaded page number; 1 when both are empty; otherwise exactly one more than the largest of them |
| BookEditor.SheetsAsWritten | frontend/src/pages/BookEditor.js:244-265 | the PDF sheets as written (addPage guarded by i > 0): there is always at least one sheet |
| BookEditor.Drawn | frontend/src/pages/BookEditor.js:248 | the export order's pages whose data is an object |
| BookEditor.DrawnIsFilter | frontend/src/pages/BookEditor.js:244-248 | every drawn page of the export order is kept, and an ascending order stays ascending |
| BookEditor.Sheets | frontend/src/pages/BookEditor.js:244-265 | the layout with addPage guarded by "an image was already placed" |
| BookEditor.SheetsAreDrawnPages | frontend/src/pages/BookEditor.js:244-265 | corrected layout: exactly one sheet per drawn page, in export order; one blank sheet when none is drawn |
| BookEditor.SheetsAgreeWhenFirstDrawn | frontend/src/pages/BookEditor.js:258 | when the first page in order is drawn, the layout as written equals the corrected one |
| BookEditor.BlankFirstSheet | frontend/src/pages/BookEditor.js:258 | for pages {1: null, 2: drawing} the layout as written is [blank, page 2] and the corrected one is [page 2] |
| BookEditor.Editor.constructor | frontend/src/pages/BookEditor.js:39-50 | empty page map and rows, page 1, nothing shown, canvas not mounted |
| BookEditor.Editor.CanvasMounted | frontend/src/pages/BookEditor.js:385-387 | the canvas is ready and nothing else changes |
| BookEditor.Editor.Reload | frontend/src/pages/BookEditor.js:108-125 | on a reply, `pages` is the rows and `tempPages` is exactly their page map (unsaved entries dropped); a failed fetch changes nothing |
| BookEditor.Editor.RunMountEffect | frontend/src/pages/BookEditor.js:53-73 | when currentPage differs from the last run, the fetch overwrites tempPages and pages; otherwise nothing changes |
| BookEditor.Editor.RecordCanvasChange | frontend/src/pages/BookEditor.js:390-393 | the reported data is stored under the current page; nothing else changes |
| BookEditor.Editor.ShowCurrentPage | frontend/src/pages/BookEditor.js:148-159 | with the canvas ready, an object with at least one key is loaded and anything else clears the page |
| BookEditor.Editor.ChangePage | frontend/src/pages/BookEditor.js:163-171 | the live canvas is stored under the page being left (only when the canvas is ready); then the target is current and currentPageData is cleared |
| BookEditor.Editor.ChangePageAndRefetch | frontend/src/pages/BookEditor.js:404-409 | after the following mount effect, the stored live canvas survives only if the page was unchanged or the fetch failed; otherwise tempPages is the fetched map; without a refetch the loaded rows are untouched, and the canvas-ready flag never changes |
| BookEditor.Editor.AddNewPage | frontend/src/pages/BookEditor.js:173-188 | the live canvas is stored under the old page, the new number (NewPageNumber) is added with null data and becomes current |
| BookEditor.Editor.AutoCreateFirstPage | frontend/src/pages/BookEditor.js:283-287 | a page is added if and only if no rows are loaded, the canvas is ready and the book is loaded; the new page is current with its shown data reset; otherwise nothing changes; the canvas-ready flag and the mount effect's last page are kept |
| BookEditor.Editor.Previous | frontend/src/pages/BookEditor.js:305-309 | with the button enabled (currentPage > 1) lands on currentPage - 1, never below 1, storing the live canvas; a click on the disabled button changes nothing; the canvas-ready flag and the mount effect's last page are kept, so the following effect refetches |
| BookEditor.Editor.NextEnabled | frontend/src/pages/BookEditor.js:329 | the next button is enabled only when tempPages holds non-null data under currentPage + 1 |
| BookEditor.Editor.Next | frontend/src/pages/BookEditor.js:324-329 | with the button enabled, moves to currentPage + 1 if and only if a loaded row has that number; otherwise (disabled button included) nothing changes; the canvas-ready flag and the mount effect's last page are kept |
| BookEditor.Editor.DeleteEnabled | frontend/src/pages/BookEditor.js:360 | the delete button is enabled exactly when getTotalPages reports more than one page |
| BookEditor.Editor.TotalPages | frontend/src/pages/BookEditor.js:215 | the number of tempPages entries; 0 exactly when the map is empty |
| BookEditor.Editor.MaxPage | frontend/src/pages/BookEditor.js:217 | 1 with no rows; otherwise the largest loaded page number, itself a loaded number |
| BookEditor.Editor.DeleteCurrentPage | frontend/src/pages/BookEditor.js:193-211 | reachable only with the delete button enabled (more than one page); the server loses exactly the current page; the editor lands on max(1, currentPage - 1) and tempPages becomes the server's remaining pages; a failed delete changes nothing in the editor or on the server; the mount effect's last page is kept |
| BookEditor.Editor.SavePage | frontend/src/pages/BookEditor.js:77-104 | with the live canvas under the current page, every non-null entry is upserted under its own number; after success tempPages is refetched; a failed write skips the refetch, keeps tempPages and leaves earlier writes applied |
| BookEditor.Editor.ExportOrder | frontend/src/pages/BookEditor.js:227-232 | the export visits every page number of the page map with the live canvas, the current page included, and nothing else, in strictly ascending order |
| BookEditor.Editor.ExportToPdf | frontend/src/pages/BookEditor.js:219-265 | not ready: nothing; otherwise the pages in ascending order, object pages drawn, laid out as SheetsAsWritten; the editor state is not changed |
| FabricCanvas.KeepLast | frontend/src/components/FabricCanvas.js:354 | `slice(-n)`: the last min(len, n) entries |
| FabricCanvas.InitialHistory | frontend/src/components/FabricCanvas.js:80-83 | the initial state alone on the undo stack, empty redo |
| FabricCanvas.SaveState | frontend/src/components/FabricCanvas.js:348-358 | unchanged if and only if the state repeats the top; otherwise the state is the new top, the older entries keep their order, at most 10 kept, redo emptied |
| FabricCanvas.Undo | frontend/src/components/FabricCanvas.js:367-401 | nothing unless undo has more than one entry; otherwise the top moves to the front of redo, which keeps its first 9 older entries |
| FabricCanvas.Redo | frontend/src/components/FabricCanvas.js:403-436 | nothing when redo is empty; otherwise redo[0] moves to the end of undo |
| FabricCanvas.InitialWellFormed | frontend/src/components/FabricCanvas.js:80-83 | the empty and the initial histories satisfy the bound invariant |
| FabricCanvas.TransitionsPreserveWellFormed | frontend/src/components/FabricCanvas.js:348-433 | saveState, undo and redo keep the two stacks at 10 entries together, so neither exceeds 10 |
| FabricCanvas.UndoStackNeverEmptied | frontend/src/components/FabricCanvas.js:368 | undo never empties the undo stack, and no transition empties a non-empty one |
| FabricCanvas.RedoAfterUndo | frontend/src/components/FabricCanvas.js:395-398 | redo right after undo restores both stacks exactly |
| FabricCanvas.UndoAfterRedo | frontend/src/components/FabricCanvas.js:430-433 | undo right after redo restores both stacks exactly |
| FabricCanvas.UndoOntoFullRedoDropsOldest | frontend/src/components/FabricCanvas.js:397 | without the bound, undo onto a full redo stack loses its oldest entry, so the round trip fails |
| FabricCanvas.PanGesture.constructor | frontend/src/components/FabricCanvas.js:249-252 | not panning, no reference point, not moved, no target, selection on |
| FabricCanvas.PanGesture.MouseDown | frontend/src/components/FabricCanvas.js:254-264 | a right press records the point and the target and forgets earlier movement; other buttons change nothing |
| FabricCanvas.PanGesture.CanvasMouseDown | frontend/src/components/FabricCanvas.js:115-119 | a right press on an object that is not excluded from export hides the context menu |
| FabricCanvas.PanGesture.MouseMove | frontend/src/components/FabricCanvas.js:266-288 | while the right button is held, a move of more than 5 px on either axis sets isPanning and hasMoved and shifts the viewport by exactly the move; smaller moves only update the reference point |
| FabricCanvas.PanGesture.MouseUp | frontend/src/components/FabricCanvas.js:290-300 | releasing the right button ends the pan, restores selection and forgets the point |
| FabricCanvas.PanGesture.ContextMenu | frontend/src/components/FabricCanvas.js:302-316 | the menu opens at the pointer only if the press did not move and hit an object that is not the page boundary; hasMoved and the target are always reset |
| FabricCanvas.Boundaries | frontend/src/components/FabricCanvas.js:139-143 | only page-boundary objects, and every one of them, from the list |
| FabricCanvas.BoundariesIdempotent | frontend/src/components/FabricCanvas.js:139-143 | clearing a cleared page changes nothing |
| FabricCanvas.RemoveFirst | frontend/src/components/FabricCanvas.js:141 | `canvas.remove`: one occurrence fewer when present, unchanged otherwise |
| FabricCanvas.Scene.constructor | frontend/src/components/FabricCanvas.js:73 | a new canvas holds its page boundary |
| FabricCanvas.Scene.Remove | frontend/src/components/FabricCanvas.js:141 | the object list loses that object |
| FabricCanvas.Scene.ClearCanvas | frontend/src/components/FabricCanvas.js:138-144 | every object that is not a page boundary is removed; every boundary stays, in order |
| UserSettings.PasswordCheck | frontend/src/pages/UserSettings.js:111-124 | passes if and only if all three fields are filled, new equals confirm and is at least 6 long; each rejection carries the message of the first failing guard |
| UserSettings.PasswordGuardsInOrder | frontend/src/pages/UserSettings.js:111-126 | for every input only the first failing guard is reported: a mismatch only with all fields filled, a short password only with all fields filled and the new entries equal |
| UserSettings.UsernameCheck | frontend/src/pages/UserSettings.js:86-94 | passes if and only if the name is non-empty and not known to be taken; the empty check comes first |
| UserSettings.ErrorText | frontend/src/pages/UserSettings.js:105 | the server's non-empty error text, else the fallback |
| UserSettings.FormData.With | frontend/src/pages/UserSettings.js:77-80 | the named field takes the value; every other field is unchanged |
| UserSettings.SettingsForm.constructor | frontend/src/pages/UserSettings.js:23-38 | empty profile and form, not loading, no messages, name available |
| UserSettings.SettingsForm.FetchUserInfo | frontend/src/pages/UserSettings.js:44-54 | the profile is shown and the username field starts from the current name; a failure sets "Failed to fetch user information" |
| UserSettings.SettingsForm.HandleChange | frontend/src/pages/UserSettings.js:75-83 | only the named field changes, and error and success are cleared |
| UserSettings.SettingsForm.CheckUsername | frontend/src/pages/UserSettings.js:57-73 | availability is updated only for a non-empty name that differs from the current one and only when the lookup answers |
| UserSettings.SettingsForm.UpdateUsername | frontend/src/pages/UserSettings.js:85-108 | a request is sent if and only if the guards pass; a failing guard sets its message only; success shows the success text and reloads, keeping the password fields (and the error when the reload succeeds); failure shows the server error or the fallback |
| UserSettings.SettingsForm.UpdatePassword | frontend/src/pages/UserSettings.js:110-146 | a request is sent if and only if the guards pass; a failing guard sets its message only; after success the three password fields are empty |
| UserProfile.Saved | frontend/src/pages/UserProfile.js:55 | only books with last_saved_at, drawn from the list |
| UserProfile.SavedKeepsSavedBooks | frontend/src/pages/UserProfile.js:55 | every book with last_saved_at survives the filter |
| UserProfile.NewestFirstPairs | frontend/src/pages/UserProfile.js:56 | in a newest-first list every book is saved no later than any book before it |
| UserProfile.Insert | frontend/src/pages/UserProfile.js:56 | inserting into a newest-first list keeps it newest first and adds exactly that book |
| UserProfile.SortNewestFirst | frontend/src/pages/UserProfile.js:56 | the same books (a permutation), newest first |
| UserProfile.Take | frontend/src/pages/UserProfile.js:57 | `slice(0, n)`: the first min(len, n) entries |
| UserProfile.RecentActivity | frontend/src/pages/UserProfile.js:54-57 | at most 5 books, all with last_saved_at, newest first, all drawn from the fetched list |
| UserProfile.RecentActivityIsNewest | frontend/src/pages/UserProfile.js:54-57 | no saved book left out is newer than the oldest one shown; with at most 5 saved books all are shown; the length is min(saved, 5) |
| UserProfile.Summarize | frontend/src/pages/UserProfile.js:53-63 | totalBooks is the number of fetched books; the recent entries are RecentActivity of them (at most five saved books, newest first), each one of the fetched books |
| UserProfile.FormatDate | frontend/src/pages/UserProfile.js:70-83 | a missing or empty value gives "Unbekannt"; an unparsable one gives "Ungültiges Datum"; otherwise the rendered date |

## Left out

- Dense renumbering of pages is not modelled. The code never renumbers: a save upserts each page under its own number and a delete leaves a gap.
- Network I/O is not modelled: axios requests, socket.io joining and relaying (frontend/src/pages/BookEditor.js:53-57, backend/server.js:362-370) and CORS. Replies are method inputs, and a server-side failure is a `fault`/`failAt` input.
- Timers and asynchronous scheduling are not modelled, each handler being one atomic step: the saveState debounce, the 100 ms initial-state delay, the 300 ms render wait in the export and the 500 ms username-lookup debounce.
- Interleavings are not modelled: state updates within one handler are applied in order.
- JWT signing and verification are the parameter `verify`; bcrypt hashing is not modelled.
- The 500 "Permission check failed" branch of checkPermission (a failing database query, backend/auth.js:43-45) is not modelled.
- The login, /api/me, username-check and account-update routes of the server are not part of this model; only the registration field check is.
- The users table is not modelled.
- `Server.Database.ListBooks`: the rows are returned as a map keyed by book id, because the query has no ORDER BY. Each row is the book record with the caller's role, not the full joined row.
- `Server.Database.PutPage`, `Server.Database.UpdateSettings`: the database clock (CURRENT_TIMESTAMP, NOW()) is the parameter `now`.
- `Server.Database.ArchiveBook`, `Server.Database.UpdateSettings`: a missing body field (stored as NULL) is not modelled; the new values are given.
- `Server.Database.GetPages`, `Server.Database.ListBooks`, `Server.Database.PutPage`, `Server.Database.ArchiveBook`, `Server.Database.UpdateSettings`: pg query failures are a boolean input. Only the fixed message is modelled where the route appends no error detail.
- `BookEditor.Editor.ExportToPdf`: a null image from the canvas export is not modelled; every page whose data is an object yields an image. The reload of the current page after export, the PDF page size and the rasterisation are left out.
- `BookEditor.Editor.ExportToPdf`: the "no pages" warning branch is modelled but unreachable, since the current page is always among the exported keys.
- `BookEditor.Editor.SavePage`, `BookEditor.Editor.DeleteCurrentPage`: the refetch returns the page table as these requests left it. Another writer in between is not modelled.
- The snackbar texts and the loading indicators of the editor are not modelled; `SaveOutcome` says which message would show.
- `BookEditor.SendWrites`, `BookEditor.Editor.SavePage`: page numbers are taken to be array indices (0 to 2^32 - 2). A negative or larger page number (the column has no CHECK) is a non-index key, which `Object.entries` visits after the index keys in insertion order; the model writes it in ascending numeric order instead, because a map keeps no insertion order.
- Canvas documents are opaque values compared with `==`. The history's JSON.stringify equality is taken to be value equality. An object's own-key count is the one property the page-load effect reads.
- `FabricCanvas.Undo`: the handler reads `current` from the rendered history and slices the latest one. With atomic handlers the two are the same, and the model uses one history.
- Detaching and reattaching the canvas listeners during undo and redo is not modelled. The saveState calls that removals in clearCanvas and loading trigger are not modelled either; the history transitions are pure functions over states.
- Viewport translation and pointer coordinates are integers. Zoom, wheel and resize handling, floating-point scale arithmetic, cursor styles and fabric object construction are not modelled.
- Drawing tools, colours, brush width and the selection guards for the page boundary are not modelled.
- `UserSettings.PasswordCheck`: the length is counted in Dafny characters, while JavaScript's `length` counts UTF-16 code units (they differ only outside the Basic Multilingual Plane).
- `UserSettings.SettingsForm.UpdateUsername`: the profile reload after success is not awaited in the source. The model applies its reply at once.
- `UserProfile.FormatDate`: date parsing and de-DE rendering are the parameters `parse` and `render`.
- `UserProfile.RecentActivity`: timestamps are integers. The order among books saved at the same instant (the stable sort keeps list order) is not stated.
- The profile page's user fields other than the book summary are not modelled.
- Form pages that only post to the API, the router's guards, theming and layout are not part of this model.

## Findings

| source | as written | input that shows it | evidently intended | confidence | as-written member | corrected member |
|---|---|---|---|---|---|---|
| frontend/src/pages/BookEditor.js:258 | `addPage` is guarded by the loop index (`i > 0`), so when the first page in order is not drawn, the first image goes on a second sheet and the PDF starts with a blank sheet | page map {1: null, 2: a drawing}, with page 2 current (page 1's stored canvas_data is NULL, which the PUT route accepts) | one sheet per drawn page, no leading blank sheet | medium, not executed | BookEditor.BlankFirstSheet | BookEditor.SheetsAreDrawnPages |

`BookEditor.SheetsAsWritten` is the layout as written, and
`BookEditor.Editor.ExportToPdf` follows it. `BookEditor.Sheets` is the
corrected layout, guarded by "an image was already placed".
`BookEditor.SheetsAgreeWhenFirstDrawn` shows the two agree whenever the
first page in order is drawn.
