/** Client runs of the table and its dialogs, each a short script of user
    actions and settled requests, with what the script must produce. */
module Scenarios {
  import opened TicketModel
  import opened Text
  import opened TicketFilter
  import opened TicketSort
  import opened TicketsTableComponent
  import opened AddTicketDialog
  import opened UpdateTicketDialog

  /** Seven tickets, ids 1 to 7, odd ids open. */
  function AlternatingPage(): seq<Ticket>
  {
    [Ticket(1, "a", true, 10), Ticket(2, "b", false, 20), Ticket(3, "c", true, 30),
     Ticket(4, "d", false, 40), Ticket(5, "e", true, 50), Ticket(6, "f", false, 60),
     Ticket(7, "g", true, 70)]
  }

  /** An empty search with the `open` selector shows ids 1, 3, 5, 7 in page order. */
  lemma OpenRowsOfAlternatingPage()
    ensures Rows(AlternatingPage(), "", Open, SortSpec(Unsorted, NoDirection))
         == [AlternatingPage()[0], AlternatingPage()[2], AlternatingPage()[4], AlternatingPage()[6]]
  {
    var page := AlternatingPage();
    var open := [page[0], page[2], page[4], page[6]];
    forall i | 0 <= i < |page|
      ensures Keeps(page[i], "", Open) == page[i].status
    {
      IncludesEmpty(DecimalText(page[i].idTicket));
    }
    assert Filter(page[6..], "", Open) == [page[6]];
    assert Filter(page[4..], "", Open) == [page[4], page[6]] by {
      assert page[4..][1..] == page[5..] && page[5..][1..] == page[6..];
    }
    assert Filter(page[2..], "", Open) == [page[2], page[4], page[6]] by {
      assert page[2..][1..] == page[3..] && page[3..][1..] == page[4..];
    }
    assert Filter(page, "", Open) == open by {
      assert page[1..][1..] == page[2..];
    }
    UnsortedKeepsOrder(SortSpec(Unsorted, NoDirection), open);
  }

  /** Saving a blank description issues no request and shows the validation error. */
  method BlankDescriptionIsRefused(now: int) returns (requests: seq<Request>, error: string, notified: seq<Notification>)
    ensures requests == [] && error == EmptyDescriptionError && notified == []
  {
    var dialog := new AddTicketModal(now);
    dialog.SetDescription(" \t ");
    dialog.HandleSave(Success(()));
    requests, error, notified := dialog.sent, dialog.errorMessage, dialog.notified;
  }

  /** A failed save followed by a retry posts the same date both times, and
      only the successful attempt reaches the table's callbacks. */
  method RetryPostsSameDate(now: int) returns (requests: seq<Request>, notified: seq<Notification>)
    ensures requests == [PostTicket(NewTicket("printer jam", true, now)), PostTicket(NewTicket("printer jam", true, now))]
    ensures notified == [OnTicketAdded, OnClose]
  {
    var dialog := new AddTicketModal(now);
    dialog.SetDescription("printer jam");
    assert !IsWhitespace(dialog.description[0]);
    dialog.HandleSave(Failure);
    dialog.HandleSave(Success(()));
    requests, notified := dialog.sent, dialog.notified;
  }

  /** An edit that empties the description is sent unchanged: there is no check. */
  method EmptyEditIsSent(t: Ticket) returns (requests: seq<Request>)
    ensures requests == [PutTicket(t.idTicket, Ticket(t.idTicket, "", !t.status, t.date))]
  {
    var dialog := new UpdateTicketModal(t);
    dialog.SetDescription("");
    dialog.SetStatus(!t.status);
    dialog.HandleUpdate(Failure);
    requests := dialog.sent;
  }

  /** A successful update reloads the current page exactly once and shows the
      success message until the timer clears it. */
  method UpdateReloadsOnce(first: PageResponse, again: PageResponse)
    returns (requests: seq<Request>, shownAfterUpdate: string, shownLater: string)
    ensures requests == [GetPage(1, PageSize), GetPage(first.currentPage, PageSize)]
    ensures shownAfterUpdate == UpdatedMessage && shownLater == ""
  {
    var table := new TicketsTable();
    table.Mount(Success(first));
    table.HandleTicketUpdated(Success(again));
    shownAfterUpdate := table.successMessage;
    table.ClearSuccessMessage();
    requests, shownLater := table.sent, table.successMessage;
  }

  /** Marking ticket 5 and confirming issues one DELETE for 5 followed by one
      reload of the current page, and leaves nothing marked. */
  method DeleteConfirmed(first: PageResponse, after: PageResponse)
    returns (requests: seq<Request>, marked: Option<nat>, confirming: bool)
    ensures requests == [GetPage(1, PageSize), DeleteTicket(5), GetPage(first.currentPage, PageSize)]
    ensures marked == None && !confirming
  {
    var table := new TicketsTable();
    table.Mount(Success(first));
    table.HandleDelete(5);
    table.ConfirmDelete(Success(()), Success(after));
    requests, marked, confirming := table.sent, table.ticketToDelete, table.isConfirmationModalOpen;
  }

  /** Marking a ticket and cancelling issues no request. */
  method DeleteCancelled(id: nat) returns (requests: seq<Request>, marked: Option<nat>)
    ensures requests == [] && marked == None
  {
    var table := new TicketsTable();
    table.HandleDelete(id);
    table.HandleCancelDelete();
    requests, marked := table.sent, table.ticketToDelete;
  }

  /** From the first of several pages, Previous sends nothing and Next asks
      for page 2. */
  method PagingFromFirstPage(first: PageResponse, second: PageResponse) returns (requests: seq<Request>)
    requires first.currentPage == 1 && first.totalPages >= 2
    ensures requests == [GetPage(1, PageSize), GetPage(2, PageSize)]
  {
    var table := new TicketsTable();
    table.Mount(Success(first));
    table.HandlePreviousPage(Success(second));
    table.HandleNextPage(Success(second));
    requests := table.sent;
  }
}
