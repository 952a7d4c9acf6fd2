# Ticket list controller: a Dafny model

This project models the browser-side ticket list of a small ticket-management
front end. It covers three components:

- **`TicketsTable`** owns the tickets of the page it has loaded and the
  pagination cursor (`currentPage`, `totalPages`). It derives the rows on
  screen by filtering the loaded tickets and then sorting them. The filter
  combines a search term with a status selector. The sort orders by date or
  by status, in either direction. The component also runs the two-phase
  delete (mark, then confirm or cancel) and the bookkeeping after an update
  succeeds (success message, closing the update dialog).
- **`AddTicketModal`** holds the description and status drafts and the
  creation date. It refuses a blank description before any request, posts
  the new ticket, and tracks loading and error messages.
- **`UpdateTicketModal`** starts its drafts from the ticket being edited. It
  sends them in a PUT that keeps the ticket's id and date, and notifies the
  table on success.

Files:

- `ticket_model.dfy` (module `TicketModel`): the shared values. These are
  the ticket record, the bodies and replies of the ticket service, and the
  `Request` and `Notification` logs a component keeps. It also holds the
  `Outcome` of a network call.
- `text.dfy` (module `Text`): the string operations the components use.
  `includes`, `toLowerCase`, `trim` and the decimal text of an id.
- `ticket_filter.dfy` (module `TicketFilter`): the filter predicate and
  `filteredTickets`.
- `ticket_sort.dfy` (module `TicketSort`): the comparator, a functional
  stable sort used as the specification, and the in-place array insertion
  sort proved equal to it.
- `tickets_table.dfy` (module `TicketsTableComponent`): the controller, as
  the class `TicketsTable`.
- `add_ticket_modal.dfy`, `update_ticket_modal.dfy`: the two dialogs, each a
  class.
- `scenarios.dfy`: short client scripts of user actions and settled requests,
  each with the requests and state it must produce.

Each network call is a parameter of type `Outcome`. Its value is
`Success(response)` or `Failure`. Each handler runs as one atomic step that
uses the outcome it is given. A component records every request it issues in
`sent`. A dialog records every callback it makes to the table in `notified`.
So statements like "no request is made" and "exactly one DELETE, then one
reload" are stated about these logs.

The sort in the source is `Array.prototype.sort`, which ECMAScript requires to
be stable. Here that sort is an explicit insertion sort on an array copy. It
is proved to produce a stable ordering for the comparator: the result
is sorted by the comparator, is a permutation of its input, and keeps tickets
that the comparator ranks equal in their input order.

Behaviour of the code worth knowing:

- The creation date is fixed when the add dialog is created, not when the
  ticket is submitted. Every save attempt posts the same date.
- A failed DELETE is only logged. The mark and the confirmation are still
  cleared, and no error is shown.
- The update dialog does not check the description. An empty draft is sent
  as it is.
- The sort treats every direction other than ascending as descending,
  including the initial "no direction".

## Model

| member | source | states |
|---|---|---|
| `Text.IncludesIffOccurs` | src/Components/TicketsTable.tsx:91-92 | `includes` holds exactly when the term occurs at some position of the text |
| `Text.IncludesEmpty` | src/Components/TicketsTable.tsx:91-92 | every text includes the empty term |
| `Text.ToLower` | src/Components/TicketsTable.tsx:92 | lower-casing keeps the length, leaves no upper-case ASCII letter, and changes only letters |
| `Text.ToLowerIdempotent` | src/Components/TicketsTable.tsx:92 | lower-casing a lower-cased text changes nothing |
| `Text.TrimStart` | src/Components/AddTicketModal.tsx:18 | the result is a suffix of the text, all dropped characters are whitespace, the result does not start with whitespace, and it is empty exactly when the text is blank |
| `Text.TrimEnd` | src/Components/AddTicketModal.tsx:18 | the result is a prefix of the text, all dropped characters are whitespace, the result does not end with whitespace, and it is empty exactly when the text is blank |
| `Text.Trim` | src/Components/AddTicketModal.tsx:18 | the trimmed text neither starts nor ends with whitespace, and it is empty exactly when every character is whitespace |
| `Text.DecimalText` | src/Components/TicketsTable.tsx:91 | an id's text is non-empty, all digits, and has no leading zero |
| `Text.DecimalRoundTrip` | src/Components/TicketsTable.tsx:91 | reading the decimal text of an id back gives the id |
| `Text.DecimalTextInjective` | src/Components/TicketsTable.tsx:91 | distinct ids have distinct texts |
| `TicketFilter.Keeps` | src/Components/TicketsTable.tsx:91-95 | a kept ticket has the selected status, and with an empty term a ticket is kept exactly when its status matches |
| `TicketFilter.Filter` | src/Components/TicketsTable.tsx:90-96 | every kept ticket satisfies the search-and-status predicate, and no more tickets are kept than the page holds |
| `TicketFilter.FilterIsSubsequence` | src/Components/TicketsTable.tsx:90-96 | the filtered rows keep the page's relative order |
| `TicketFilter.FilterMultiplicity` | src/Components/TicketsTable.tsx:90-96 | each ticket that passes the predicate is kept as many times as the page holds it; any other ticket is never kept |
| `TicketFilter.FilterMembership` | src/Components/TicketsTable.tsx:90-96 | a ticket is kept exactly when it is on the page and its id text or lower-cased description contains the term and its status matches |
| `TicketFilter.FilterUnconstrainedKeepsAll` | src/Components/TicketsTable.tsx:91-95 | an empty term with `all` keeps the whole page unchanged |
| `TicketFilter.StatusFilterPartitions` | src/Components/TicketsTable.tsx:93 | `open` keeps only open tickets, `closed` only closed ones, and together they keep as many as `all` |
| `TicketFilter.FilterIdempotent` | src/Components/TicketsTable.tsx:90-96 | filtering twice with the same criteria equals filtering once |
| `TicketSort.Compare` | src/Components/TicketsTable.tsx:99-110 | the comparator's value is the difference of the two tickets' ranks, so it is a consistent total preorder |
| `TicketSort.Insert` | src/Components/TicketsTable.tsx:99-110 | inserting adds exactly one entry |
| `TicketSort.InsertPermutes` | src/Components/TicketsTable.tsx:99-110 | inserting adds the new ticket and loses nothing |
| `TicketSort.InsertKeepsSorted` | src/Components/TicketsTable.tsx:99-110 | inserting into a sorted sequence keeps it sorted |
| `TicketSort.TiesAppend` | src/Components/TicketsTable.tsx:99-110 | the equal-ranked entries of a concatenation are those of each part, in order |
| `TicketSort.TiesSingle` | src/Components/TicketsTable.tsx:99-110 | a single entry is its own equal-ranked subsequence exactly when it ranks equal |
| `TicketSort.InsertTies` | src/Components/TicketsTable.tsx:99-110 | an inserted ticket goes after every entry of its own rank |
| `TicketSort.StableSort` | src/Components/TicketsTable.tsx:99 | the sorted rows are as many as the filtered rows |
| `TicketSort.StableSortPermutes` | src/Components/TicketsTable.tsx:99 | the sort is a permutation of the filtered rows |
| `TicketSort.StableSortSorted` | src/Components/TicketsTable.tsx:99-110 | no pair of sorted rows is out of order under the comparator |
| `TicketSort.StableSortStable` | src/Components/TicketsTable.tsx:99-110 | rows the comparator ranks equal keep their filtered order |
| `TicketSort.UnsortedKeepsOrder` | src/Components/TicketsTable.tsx:109 | with no criterion the comparator returns 0 and the order is unchanged |
| `TicketSort.DateAscendingOrder` | src/Components/TicketsTable.tsx:100-103 | date ascending gives non-decreasing timestamps |
| `TicketSort.DateDescendingOrder` | src/Components/TicketsTable.tsx:100-103 | date with any other direction gives non-increasing timestamps |
| `TicketSort.StatusOpenFirst` | src/Components/TicketsTable.tsx:104-106 | status ascending puts every open ticket before every closed one |
| `TicketSort.StatusClosedFirst` | src/Components/TicketsTable.tsx:104-107 | status with any other direction puts every closed ticket before every open one |
| `TicketSort.StatusTiesAreSameStatus` | src/Components/TicketsTable.tsx:104-107 | under a status sort, equal rank means equal status |
| `TicketSort.StatusSortKeepsOrderWithinStatus` | src/Components/TicketsTable.tsx:104-107 | under a status sort, tickets with equal status keep their filtered order |
| `TicketSort.Reverse` | src/Components/TicketsTable.tsx:100-103 | reversing keeps the length and reads the input back to front |
| `TicketSort.ReversePermutes` | src/Components/TicketsTable.tsx:100-103 | reversing loses nothing |
| `TicketSort.DateOrderUnique` | src/Components/TicketsTable.tsx:100-103 | two date-ordered arrangements of the same tickets are equal when tickets with the same date are the same ticket |
| `TicketSort.DateDirectionsMirror` | src/Components/TicketsTable.tsx:100-103 | with distinct dates, the ascending date sort is the descending one read backwards |
| `TicketSort.InsertAt` | src/Components/TicketsTable.tsx:99-110 | one in-place pass moves `a[n]` into the sorted prefix exactly as `Insert` does and leaves the rest of the array alone |
| `TicketSort.InsertionSort` | src/Components/TicketsTable.tsx:99-110 | the in-place sort of the array produces the stable sort of its old contents |
| `TicketsTableComponent.ApplyFetch` | src/Components/TicketsTable.tsx:36-44 | a failed fetch changes nothing; a successful one takes the tickets, the page count and the current page from the response, and the cursor is in range exactly when the response is well formed |
| `TicketsTableComponent.Rows` | src/Components/TicketsTable.tsx:90-110 | every row on screen passes the filter, and there are no more rows than loaded tickets |
| `TicketsTableComponent.RowsAreFilteredTickets` | src/Components/TicketsTable.tsx:90-110 | the rows on screen are the filtered tickets, with their multiplicities, in some order |
| `TicketsTableComponent.UnsortedRowsFollowPage` | src/Components/TicketsTable.tsx:90-110 | with no sort criterion the rows are a subsequence of the page |
| `TicketsTableComponent.UnconstrainedRowsPermutePage` | src/Components/TicketsTable.tsx:90-110 | with an empty term and `all`, the rows are a permutation of the page |
| `TicketsTableComponent.TicketsTable.constructor` | src/Components/TicketsTable.tsx:19-33 | the initial state: no tickets, page 1 of 1, nothing marked, all dialogs closed, filter `all`, no sort |
| `TicketsTableComponent.TicketsTable.FetchTickets` | src/Components/TicketsTable.tsx:36-45 | one page request for the given page; then the outcome is applied to the three page fields |
| `TicketsTableComponent.TicketsTable.Mount` | src/Components/TicketsTable.tsx:47-49 | the first render fetches page 1 |
| `TicketsTableComponent.TicketsTable.HandleNextPage` | src/Components/TicketsTable.tsx:119-123 | requests `currentPage + 1` only when `currentPage < totalPages`, otherwise nothing; from an in-range cursor the requested page is in `[1, totalPages]` |
| `TicketsTableComponent.TicketsTable.HandlePreviousPage` | src/Components/TicketsTable.tsx:125-129 | requests `currentPage - 1` only when `currentPage > 1`, otherwise nothing; from an in-range cursor the requested page is in `[1, totalPages]` |
| `TicketsTableComponent.TicketsTable.HandleUpdateClick` | src/Components/TicketsTable.tsx:51-54 | the clicked ticket becomes the one being edited and the update dialog opens |
| `TicketsTableComponent.TicketsTable.CloseUpdateModal` | src/Components/TicketsTable.tsx:234 | the update dialog closes |
| `TicketsTableComponent.TicketsTable.HandleTicketUpdated` | src/Components/TicketsTable.tsx:56-61 | exactly one reload of the current page; the success message shows and the update dialog closes |
| `TicketsTableComponent.TicketsTable.ClearSuccessMessage` | src/Components/TicketsTable.tsx:59 | the timer's effect: the success message is cleared |
| `TicketsTableComponent.TicketsTable.OpenAddModal` | src/Components/TicketsTable.tsx:225 | the add dialog opens |
| `TicketsTableComponent.TicketsTable.CloseAddModal` | src/Components/TicketsTable.tsx:241 | the add dialog closes |
| `TicketsTableComponent.TicketsTable.HandleTicketAdded` | src/Components/TicketsTable.tsx:63-65 | exactly one reload of the current page |
| `TicketsTableComponent.TicketsTable.HandleDelete` | src/Components/TicketsTable.tsx:67-70 | marks the id and opens the confirmation, replacing any earlier mark; no request |
| `TicketsTableComponent.TicketsTable.ConfirmDelete` | src/Components/TicketsTable.tsx:72-83 | with no mark, no request and no change; with a mark, one DELETE for it and a reload of the current page only on success; always ends unmarked and closed |
| `TicketsTableComponent.TicketsTable.HandleCancelDelete` | src/Components/TicketsTable.tsx:85-88 | clears the mark and closes the confirmation, with no request |
| `TicketsTableComponent.TicketsTable.HandleSortClick` | src/Components/TicketsTable.tsx:112-116 | the chosen criterion and direction become the sort |
| `TicketsTableComponent.TicketsTable.SetStatusFilter` | src/Components/TicketsTable.tsx:164 | the selected status filter becomes the filter |
| `TicketsTableComponent.TicketsTable.DerivedRows` | src/Components/TicketsTable.tsx:90-110 | the rows are the stable sort of the filtered tickets, computed on a fresh array without touching `tickets` |
| `AddTicketDialog.DescriptionAccepted` | src/Components/AddTicketModal.tsx:18 | the description passes the `trim` check exactly when some character is not whitespace |
| `AddTicketDialog.AddTicketModal.constructor` | src/Components/AddTicketModal.tsx:10-14 | drafts start empty and open, the date is the clock reading at creation, no error, not loading |
| `AddTicketDialog.AddTicketModal.SetDescription` | src/Components/AddTicketModal.tsx:55 | the description draft takes the input's value |
| `AddTicketDialog.AddTicketModal.SetStatus` | src/Components/AddTicketModal.tsx:64 | the status draft takes the selector's value |
| `AddTicketDialog.AddTicketModal.BeginSave` | src/Components/AddTicketModal.tsx:16-33 | starts only while not loading (the Save button is disabled while loading); a blank description sets the validation error, sends nothing and leaves loading alone; otherwise it clears the error, starts loading and posts exactly description, status and date |
| `AddTicketDialog.AddTicketModal.CompleteSave` | src/Components/AddTicketModal.tsx:33-41 | on success, `onTicketAdded` and then `onClose`; on failure, the failure message and no callback; loading ends either way |
| `AddTicketDialog.AddTicketModal.HandleSave` | src/Components/AddTicketModal.tsx:16-42 | the whole save, started only while not loading: validation before any request, one POST, and the callbacks and messages for each outcome |
| `AddTicketDialog.AddTicketModal.Cancel` | src/Components/AddTicketModal.tsx:78 | Cancel asks the table to close the dialog |
| `UpdateTicketDialog.UpdatePayload` | src/Components/UpdateTicketModal.tsx:16-21 | the body keeps the ticket's id and date, and equals the original ticket exactly when the drafts are unedited |
| `UpdateTicketDialog.UpdateTicketModal.constructor` | src/Components/UpdateTicketModal.tsx:11-12 | the drafts start as the ticket's own description and status |
| `UpdateTicketDialog.UpdateTicketModal.SetDescription` | src/Components/UpdateTicketModal.tsx:39 | the description draft takes the input's value |
| `UpdateTicketDialog.UpdateTicketModal.SetStatus` | src/Components/UpdateTicketModal.tsx:47 | the status draft takes the selector's value |
| `UpdateTicketDialog.UpdateTicketModal.HandleUpdate` | src/Components/UpdateTicketModal.tsx:14-28 | one PUT to the ticket's id with the drafts unchecked; on success, `onTicketUpdated` and then `onClose`; on failure, no callback |
| `UpdateTicketDialog.UpdateTicketModal.Cancel` | src/Components/UpdateTicketModal.tsx:58 | Cancel asks the table to close the dialog |
| `Scenarios.OpenRowsOfAlternatingPage` | src/Components/TicketsTable.tsx:90-96 | ids 1 to 7 with the odd ones open, an empty term and `open` show ids 1, 3, 5, 7 in page order |
| `Scenarios.BlankDescriptionIsRefused` | src/Components/AddTicketModal.tsx:18-21 | saving a whitespace description sends nothing and shows the validation error |
| `Scenarios.RetryPostsSameDate` | src/Components/AddTicketModal.tsx:12-38 | a failed save and a retry post the same date, and only the retry notifies the table |
| `Scenarios.EmptyEditIsSent` | src/Components/UpdateTicketModal.tsx:14-21 | an emptied description is sent as it is |
| `Scenarios.UpdateReloadsOnce` | src/Components/TicketsTable.tsx:56-61 | a successful update reloads the current page once and shows the message until it is cleared |
| `Scenarios.DeleteConfirmed` | src/Components/TicketsTable.tsx:67-83 | mark 5 and confirm: one DELETE for 5, then one reload, and nothing is left marked |
| `Scenarios.DeleteCancelled` | src/Components/TicketsTable.tsx:85-88 | mark and cancel: no request |
| `Scenarios.PagingFromFirstPage` | src/Components/TicketsTable.tsx:119-129 | on page 1 of several, Previous sends nothing and Next asks for page 2 |

## Left out

- HTTP transport: axios, the service URLs and JSON. Each call is an `Outcome` parameter, and any non-2xx status is a `Failure`.
- Asynchrony: interleaved responses, stale fetches overwriting newer ones, React state batching, and handlers reading a stale `currentPage`. Each handler is one atomic step. The add dialog's save is split at its single await (`BeginSave`, `CompleteSave`) so the loading state between the two steps can be seen.
- The three-second timer that clears the success message. It is modelled as the explicit event `ClearSuccessMessage`.
- Date handling. A date is an integer timestamp, the value `new Date(date).getTime()` gives for well-formed text. Parsing the ISO text, `NaN` for bad dates, and `toLocaleString` formatting are not modelled. The add dialog's clock reading is a constructor parameter.
- Text.ToLower: only the ASCII letters A to Z are mapped. JavaScript's full Unicode case mapping is not modelled.
- Text.DecimalText: ids are natural numbers. JavaScript's `toString` for negative, fractional or very large numbers (exponent notation) is not modelled.
- Whether a response is well formed is up to the server. The pagination guarantees hold for responses with `1 ≤ currentPage ≤ totalPages` (`WellFormedResponse`).
- Rendering: JSX, CSS, the sort menu's visibility toggle (`sortOptionsVisible`), `console.error`, and the `alert` shown when an update fails.
- Unmounting. When a dialog's `onClose` runs, the table removes the dialog and its state. The model keeps the dialog object and records the `OnClose` callback in `notified`.
- `App.tsx` only holds the search text. The text is the `searchTerm` parameter of `DerivedRows`.
- `ConfirmationModal.tsx` is not part of this model. Its confirm and cancel buttons are the `ConfirmDelete` and `HandleCancelDelete` calls.
