/** The ticket list controller (TicketsTable.tsx): the loaded page and the
    pagination cursor, the status filter and sort choice, the two-phase
    delete, and the update-success bookkeeping. Each network call becomes an
    `Outcome` argument, and each handler runs as one atomic step. */
module TicketsTableComponent {
  import opened TicketModel
  import opened TicketFilter
  import opened TicketSort

  const UpdatedMessage: string := "Ticket updated successfully!"

  /** The three fields a page fetch writes. */
  datatype PageState = PageState(tickets: seq<Ticket>, totalPages: int, currentPage: int)

  /** The effect of a settled page fetch: a failure changes nothing; a success
      replaces all three fields from the response. The cursor comes from the
      response, not from the page that was asked for, so it stays in range
      exactly when the response is well formed. */
  function ApplyFetch(p: PageState, outcome: Outcome<PageResponse>): (q: PageState)
    ensures outcome.Failure? ==> q == p
    ensures outcome.Success? ==> q.tickets == outcome.response.tickets
    ensures outcome.Success? ==>
      q.totalPages == outcome.response.totalPages && q.currentPage == outcome.response.currentPage
    ensures outcome.Success? ==> (1 <= q.currentPage <= q.totalPages <==> WellFormedResponse(outcome.response))
  {
    match outcome
    case Success(r) => PageState(r.tickets, r.totalPages, r.currentPage)
    case Failure => p
  }

  /** The rows on screen: the loaded tickets filtered, then stably sorted.
      Every row passes the filter, and there are no more rows than tickets. */
  function Rows(tickets: seq<Ticket>, term: string, f: StatusFilter, spec: SortSpec): (r: seq<Ticket>)
    ensures |r| <= |tickets|
    ensures forall i :: 0 <= i < |r| ==> Keeps(r[i], term, f)
  {
    var filtered := Filter(tickets, term, f);
    StableSortPermutes(spec, filtered);
    var r := StableSort(spec, filtered);
    assert forall i :: 0 <= i < |r| ==> r[i] in multiset(filtered) by {
      forall i | 0 <= i < |r| ensures r[i] in multiset(filtered) {
        assert r[i] in multiset(r);
      }
    }
    r
  }

  /** The rows are the filtered tickets in some order: a ticket is shown as
      often as the page holds it if it passes the filter, and never otherwise. */
  lemma RowsAreFilteredTickets(tickets: seq<Ticket>, term: string, f: StatusFilter, spec: SortSpec, t: Ticket)
    ensures multiset(Rows(tickets, term, f, spec))[t] == if Keeps(t, term, f) then multiset(tickets)[t] else 0
  {
    StableSortPermutes(spec, Filter(tickets, term, f));
    FilterMultiplicity(tickets, term, f, t);
  }

  /** With no sort criterion the rows are a subsequence of the page. */
  lemma UnsortedRowsFollowPage(tickets: seq<Ticket>, term: string, f: StatusFilter, d: Direction)
    ensures IsSubsequence(Rows(tickets, term, f, SortSpec(Unsorted, d)), tickets)
  {
    UnsortedKeepsOrder(SortSpec(Unsorted, d), Filter(tickets, term, f));
    FilterIsSubsequence(tickets, term, f);
  }

  /** With an empty search and the `all` selector the rows are a permutation
      of the page: nothing is dropped or duplicated. */
  lemma UnconstrainedRowsPermutePage(tickets: seq<Ticket>, spec: SortSpec)
    ensures multiset(Rows(tickets, "", All, spec)) == multiset(tickets)
  {
    FilterUnconstrainedKeepsAll(tickets);
    StableSortPermutes(spec, tickets);
  }

  class TicketsTable {
    var tickets: seq<Ticket>
    var isModalOpen: bool
    var showModal: bool
    var currentTicket: Option<Ticket>
    var successMessage: string
    var isConfirmationModalOpen: bool
    var ticketToDelete: Option<nat>
    var statusFilter: StatusFilter
    var sortCriteria: Criteria
    var sortDirection: Direction
    var currentPage: int
    var totalPages: int
    /** Requests issued to the ticket service, oldest first. */
    var sent: seq<Request>

    /** The confirmation dialog is open exactly while a ticket is marked for deletion. */
    ghost predicate Valid()
      reads this
    {
      isConfirmationModalOpen <==> ticketToDelete.Some?
    }

    predicate PageInRange()
      reads this
    {
      1 <= currentPage <= totalPages
    }

    function Page(): PageState
      reads this
    {
      PageState(tickets, totalPages, currentPage)
    }

    function Sort(): SortSpec
      reads this
    {
      SortSpec(sortCriteria, sortDirection)
    }

    /** The initial state, before the first fetch. */
    constructor ()
      ensures Valid() && PageInRange()
      ensures tickets == [] && currentPage == 1 && totalPages == 1 && sent == []
      ensures !isModalOpen && !showModal && currentTicket == None && successMessage == ""
      ensures !isConfirmationModalOpen && ticketToDelete == None
      ensures statusFilter == All && sortCriteria == Unsorted && sortDirection == NoDirection
    {
      tickets := [];
      isModalOpen := false;
      showModal := false;
      currentTicket := None;
      successMessage := "";
      isConfirmationModalOpen := false;
      ticketToDelete := None;
      statusFilter := All;
      sortCriteria := Unsorted;
      sortDirection := NoDirection;
      currentPage := 1;
      totalPages := 1;
      sent := [];
    }

    /** `fetchTickets(pageNumber)`: one page request; the outcome is applied. */
    method FetchTickets(pageNumber: int, outcome: Outcome<PageResponse>)
      modifies this`tickets, this`totalPages, this`currentPage, this`sent
      ensures sent == old(sent) + [GetPage(pageNumber, PageSize)]
      ensures Page() == ApplyFetch(old(Page()), outcome)
    {
      sent := sent + [GetPage(pageNumber, PageSize)];
      match outcome {
        case Success(r) =>
          tickets := r.tickets;
          totalPages := r.totalPages;
          currentPage := r.currentPage;
        case Failure =>
      }
    }

    /** The mount effect: fetch the first page. */
    method Mount(outcome: Outcome<PageResponse>)
      modifies this`tickets, this`totalPages, this`currentPage, this`sent
      ensures sent == old(sent) + [GetPage(1, PageSize)]
      ensures Page() == ApplyFetch(old(Page()), outcome)
    {
      FetchTickets(1, outcome);
    }

    /** `handleNextPage`: fetch the following page only when there is one. */
    method HandleNextPage(outcome: Outcome<PageResponse>)
      modifies this`tickets, this`totalPages, this`currentPage, this`sent
      ensures sent == old(sent) + if old(currentPage) < old(totalPages) then [GetPage(old(currentPage) + 1, PageSize)] else []
      ensures Page() == if old(currentPage) < old(totalPages) then ApplyFetch(old(Page()), outcome) else old(Page())
      ensures old(PageInRange()) ==> PagesWithin(sent[|old(sent)|..], old(totalPages))
    {
      if currentPage < totalPages {
        FetchTickets(currentPage + 1, outcome);
      }
    }

    /** `handlePreviousPage`: fetch the preceding page only when there is one. */
    method HandlePreviousPage(outcome: Outcome<PageResponse>)
      modifies this`tickets, this`totalPages, this`currentPage, this`sent
      ensures sent == old(sent) + if old(currentPage) > 1 then [GetPage(old(currentPage) - 1, PageSize)] else []
      ensures Page() == if old(currentPage) > 1 then ApplyFetch(old(Page()), outcome) else old(Page())
      ensures old(PageInRange()) ==> PagesWithin(sent[|old(sent)|..], old(totalPages))
    {
      if currentPage > 1 {
        FetchTickets(currentPage - 1, outcome);
      }
    }

    /** `handleUpdateClick`: open the update dialog on `t`. */
    method HandleUpdateClick(t: Ticket)
      modifies this`currentTicket, this`isModalOpen
      ensures currentTicket == Some(t) && isModalOpen
    {
      currentTicket := Some(t);
      isModalOpen := true;
    }

    /** The update dialog's `onClose`. */
    method CloseUpdateModal()
      modifies this`isModalOpen
      ensures !isModalOpen
    {
      isModalOpen := false;
    }

    /** `handleTicketUpdated`: refetch the current page, show the success
        message and close the update dialog. */
    method HandleTicketUpdated(outcome: Outcome<PageResponse>)
      modifies this`tickets, this`totalPages, this`currentPage, this`sent, this`successMessage, this`isModalOpen
      ensures sent == old(sent) + [GetPage(old(currentPage), PageSize)]
      ensures Page() == ApplyFetch(old(Page()), outcome)
      ensures successMessage == UpdatedMessage && !isModalOpen
    {
      FetchTickets(currentPage, outcome);
      successMessage := UpdatedMessage;
      isModalOpen := false;
    }

    /** The timer that clears the success message, as an explicit event. */
    method ClearSuccessMessage()
      modifies this`successMessage
      ensures successMessage == ""
    {
      successMessage := "";
    }

    /** The "Add New Ticket" button. */
    method OpenAddModal()
      modifies this`showModal
      ensures showModal
    {
      showModal := true;
    }

    /** The add dialog's `onClose`. */
    method CloseAddModal()
      modifies this`showModal
      ensures !showModal
    {
      showModal := false;
    }

    /** `handleTicketAdded`: refetch the current page. */
    method HandleTicketAdded(outcome: Outcome<PageResponse>)
      modifies this`tickets, this`totalPages, this`currentPage, this`sent
      ensures sent == old(sent) + [GetPage(old(currentPage), PageSize)]
      ensures Page() == ApplyFetch(old(Page()), outcome)
    {
      FetchTickets(currentPage, outcome);
    }

    /** `handleDelete`: mark `id` and ask for confirmation; no request yet.
        A marker that was never confirmed is replaced. */
    method HandleDelete(id: nat)
      modifies this`ticketToDelete, this`isConfirmationModalOpen
      ensures Valid()
      ensures ticketToDelete == Some(id) && isConfirmationModalOpen
    {
      ticketToDelete := Some(id);
      isConfirmationModalOpen := true;
    }

    /** `confirmDelete`: with no marked ticket nothing happens. Otherwise one
        DELETE for the marked id; only when it succeeds is the current page
        refetched; either way the marker and the confirmation are cleared. */
    method ConfirmDelete(deleted: Outcome<()>, refetched: Outcome<PageResponse>)
      requires Valid()
      modifies this`tickets, this`totalPages, this`currentPage, this`sent, this`ticketToDelete, this`isConfirmationModalOpen
      ensures Valid()
      ensures ticketToDelete == None && !isConfirmationModalOpen
      ensures old(ticketToDelete).None? ==> sent == old(sent) && Page() == old(Page())
      ensures old(ticketToDelete).Some? ==>
        sent == old(sent) + [DeleteTicket(old(ticketToDelete).value)]
                          + if deleted.Success? then [GetPage(old(currentPage), PageSize)] else []
      ensures old(ticketToDelete).Some? ==>
        Page() == if deleted.Success? then ApplyFetch(old(Page()), refetched) else old(Page())
    {
      if ticketToDelete.Some? {
        sent := sent + [DeleteTicket(ticketToDelete.value)];
        if deleted.Success? {
          FetchTickets(currentPage, refetched);
        }
        ticketToDelete := None;
        isConfirmationModalOpen := false;
      }
    }

    /** `handleCancelDelete`: close the confirmation and drop the marker. */
    method HandleCancelDelete()
      modifies this`ticketToDelete, this`isConfirmationModalOpen
      ensures Valid()
      ensures ticketToDelete == None && !isConfirmationModalOpen
    {
      isConfirmationModalOpen := false;
      ticketToDelete := None;
    }

    /** `handleSortClick`: the menu offers a criterion and a direction. */
    method HandleSortClick(criteria: Criteria, direction: Direction)
      requires criteria != Unsorted && direction != NoDirection
      modifies this`sortCriteria, this`sortDirection
      ensures sortCriteria == criteria && sortDirection == direction
    {
      sortCriteria := criteria;
      sortDirection := direction;
    }

    /** The status selector's `onChange`. */
    method SetStatusFilter(f: StatusFilter)
      modifies this`statusFilter
      ensures statusFilter == f
    {
      statusFilter := f;
    }

    /** `sortedTickets`: filter the loaded tickets into a fresh array and sort
        that array in place; `tickets` itself is never touched. */
    method DerivedRows(searchTerm: string) returns (rows: seq<Ticket>)
      ensures rows == Rows(tickets, searchTerm, statusFilter, Sort())
    {
      var filtered := Filter(tickets, searchTerm, statusFilter);
      var a := new Ticket[|filtered|](i requires 0 <= i < |filtered| => filtered[i]);
      assert a[..] == filtered;
      InsertionSort(a, Sort());
      rows := a[..];
    }
  }
}
