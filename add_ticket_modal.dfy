/** The add-ticket dialog (AddTicketModal.tsx): draft fields, the blank-text
    check made before any request, and the loading and error transitions
    around the POST. The dialog reports to the table through two callbacks,
    `onTicketAdded` and `onClose`, recorded here in `notified`. */
module AddTicketDialog {
  import opened TicketModel
  import opened Text

  const EmptyDescriptionError: string := "Description cannot be empty."
  const AddFailedError: string := "Failed to add ticket. Please try again."

  /** The check `handleSave` makes: the trimmed description is not empty,
      which holds exactly when some character is not whitespace. */
  predicate DescriptionAccepted(description: string): (r: bool)
    ensures r <==> !IsBlank(description)
  {
    Trim(description) != ""
  }

  class AddTicketModal {
    var description: string
    var status: bool
    /** Fixed when the dialog is created: every save attempt posts this instant. */
    const date: int
    var errorMessage: string
    var isLoading: bool
    /** Requests issued to the ticket service, oldest first. */
    var sent: seq<Request>
    /** Callbacks invoked on the table, oldest first. */
    var notified: seq<Notification>

    /** A fresh dialog: empty description, status open, no error, not loading.
        The clock reading `now` becomes the ticket's date. */
    constructor (now: int)
      ensures description == "" && status && date == now
      ensures errorMessage == "" && !isLoading
      ensures sent == [] && notified == []
    {
      description := "";
      status := true;
      date := now;
      errorMessage := "";
      isLoading := false;
      sent := [];
      notified := [];
    }

    /** The description input's `onChange`. */
    method SetDescription(d: string)
      modifies this`description
      ensures description == d
    {
      description := d;
    }

    /** The status selector's `onChange`. */
    method SetStatus(open: bool)
      modifies this`status
      ensures status == open
    {
      status := open;
    }

    /** `handleSave` up to the await: a blank description sets the error and
        stops with no request and the loading flag untouched; otherwise the
        error is cleared, loading starts, and the POST is issued with exactly
        the two drafts and the fixed date. The Save button is disabled while
        loading, so a save never starts while another is in flight. */
    method BeginSave() returns (posted: bool)
      requires !isLoading
      modifies this`errorMessage, this`isLoading, this`sent
      ensures posted <==> !IsBlank(description)
      ensures !posted ==> errorMessage == EmptyDescriptionError && isLoading == old(isLoading) && sent == old(sent)
      ensures posted ==> errorMessage == "" && isLoading && sent == old(sent) + [PostTicket(NewTicket(description, status, date))]
    {
      if !DescriptionAccepted(description) {
        errorMessage := EmptyDescriptionError;
        return false;
      }
      errorMessage := "";
      isLoading := true;
      sent := sent + [PostTicket(NewTicket(description, status, date))];
      posted := true;
    }

    /** `handleSave` after the await: on success the table is told a ticket
        was added and then asked to close the dialog; on failure the error is
        shown and no callback runs; loading ends either way. */
    method CompleteSave(outcome: Outcome<()>)
      modifies this`errorMessage, this`isLoading, this`notified
      ensures !isLoading
      ensures outcome.Success? ==> notified == old(notified) + [OnTicketAdded, OnClose] && errorMessage == old(errorMessage)
      ensures outcome.Failure? ==> notified == old(notified) && errorMessage == AddFailedError
    {
      if outcome.Success? {
        notified := notified + [OnTicketAdded];
        notified := notified + [OnClose];
      } else {
        errorMessage := AddFailedError;
      }
      isLoading := false;
    }

    /** `handleSave` as one step, started from the enabled Save button. */
    method HandleSave(outcome: Outcome<()>)
      requires !isLoading
      modifies this`errorMessage, this`isLoading, this`sent, this`notified
      ensures IsBlank(description) ==>
        errorMessage == EmptyDescriptionError && isLoading == old(isLoading)
        && sent == old(sent) && notified == old(notified)
      ensures !IsBlank(description) ==>
        sent == old(sent) + [PostTicket(NewTicket(description, status, date))] && !isLoading
      ensures !IsBlank(description) && outcome.Success? ==>
        notified == old(notified) + [OnTicketAdded, OnClose] && errorMessage == ""
      ensures !IsBlank(description) && outcome.Failure? ==>
        notified == old(notified) && errorMessage == AddFailedError
    {
      var posted := BeginSave();
      if posted {
        CompleteSave(outcome);
      }
    }

    /** The Cancel button: ask the table to close the dialog. */
    method Cancel()
      modifies this`notified
      ensures notified == old(notified) + [OnClose]
    {
      notified := notified + [OnClose];
    }
  }
}
