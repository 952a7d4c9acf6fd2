/** The update-ticket dialog (UpdateTicketModal.tsx): drafts initialised from
    the ticket, the PUT that carries them, and the callbacks on success. */
module UpdateTicketDialog {
  import opened TicketModel

  /** The PUT body: id and date come from the ticket being edited, description
      and status from the drafts. It equals the original ticket exactly when
      the drafts are unedited. */
  function UpdatePayload(t: Ticket, description: string, status: bool): (body: Ticket)
    ensures body.idTicket == t.idTicket && body.date == t.date
    ensures body == t <==> description == t.description && status == t.status
  {
    Ticket(t.idTicket, description, status, t.date)
  }

  class UpdateTicketModal {
    /** The ticket being edited. */
    const ticket: Ticket
    var description: string
    var status: bool
    /** Requests issued to the ticket service, oldest first. */
    var sent: seq<Request>
    /** Callbacks invoked on the table, oldest first. */
    var notified: seq<Notification>

    /** The drafts start as the ticket's own description and status. */
    constructor (t: Ticket)
      ensures ticket == t && description == t.description && status == t.status
      ensures sent == [] && notified == []
    {
      ticket := t;
      description := t.description;
      status := t.status;
      sent := [];
      notified := [];
    }

    /** The description input's `onChange`. */
    method SetDescription(d: string)
      modifies this`description
      ensures description == d
    {
      description := d;
    }

    /** The status selector's `onChange`. */
    method SetStatus(open: bool)
      modifies this`status
      ensures status == open
    {
      status := open;
    }

    /** `handleUpdate`: one PUT to the edited ticket's id carrying the drafts
        as they are (no check on the description); on success the table is
        told of the update and then asked to close the dialog; on failure no
        callback runs and the dialog stays open. */
    method HandleUpdate(outcome: Outcome<()>)
      modifies this`sent, this`notified
      ensures sent == old(sent) + [PutTicket(ticket.idTicket, UpdatePayload(ticket, description, status))]
      ensures notified == old(notified) + if outcome.Success? then [OnTicketUpdated, OnClose] else []
    {
      sent := sent + [PutTicket(ticket.idTicket, UpdatePayload(ticket, description, status))];
      if outcome.Success? {
        notified := notified + [OnTicketUpdated];
        notified := notified + [OnClose];
      }
    }

    /** The Cancel button: ask the table to close the dialog. */
    method Cancel()
      modifies this`notified
      ensures notified == old(notified) + [OnClose]
    {
      notified := notified + [OnClose];
    }
  }
}
