/** Values shared by the ticket table and its two dialogs: the ticket record,
    the bodies and replies exchanged with the ticket service, and the logs a
    component keeps of what it sent and whom it notified. */
module TicketModel {

  /** A ticket as the service returns it. `date` is the creation instant as a
      numeric timestamp (milliseconds), the value `new Date(date).getTime()`
      yields for a well-formed date text. */
  datatype Ticket = Ticket(idTicket: nat, description: string, status: bool, date: int)

  /** Body of the POST that creates a ticket; the service assigns the id. */
  datatype NewTicket = NewTicket(description: string, status: bool, date: int)

  /** Body of a successful page fetch. */
  datatype PageResponse = PageResponse(tickets: seq<Ticket>, totalPages: int, currentPage: int)

  /** Every page request asks for pages of this many tickets. */
  const PageSize: int := 7

  /** A request issued to the ticket service. */
  datatype Request =
    | GetPage(pageNumber: int, pageSize: int)
    | DeleteTicket(id: nat)
    | PostTicket(newTicket: NewTicket)
    | PutTicket(id: nat, updated: Ticket)

  /** The settled result of one request: the response on success, or a
      failure (transport error or any non-2xx status; they are not told apart). */
  datatype Outcome<+T> = Success(response: T) | Failure

  datatype Option<+T> = None | Some(value: T)

  /** A callback a dialog invokes on the component that opened it. */
  datatype Notification = OnTicketAdded | OnTicketUpdated | OnClose

  /** A response that keeps the page cursor within the page count. */
  predicate WellFormedResponse(r: PageResponse)
  {
    1 <= r.currentPage <= r.totalPages
  }

  /** Every page request in `reqs` asks for a page in `[1, totalPages]`. */
  predicate PagesWithin(reqs: seq<Request>, totalPages: int)
  {
    forall i :: 0 <= i < |reqs| && reqs[i].GetPage? ==> 1 <= reqs[i].pageNumber <= totalPages
  }

  /** `a` can be obtained from `b` by deleting elements: `a` keeps a selection of
      `b`'s elements in their relative order. */
  predicate IsSubsequence<T(==)>(a: seq<T>, b: seq<T>)
    decreases |b|
  {
    if a == [] then true
    else if b == [] then false
    else (a[0] == b[0] && IsSubsequence(a[1..], b[1..])) || IsSubsequence(a, b[1..])
  }
}
