/**
 * The ticket detail modal: the statuses it offers for a ticket, who may change
 * them, the update it sends, and the modal's own state while loading and
 * updating. The offered menu is checked against the server's lifecycle table.
 */
module TicketDetail {
  import opened Wrappers
  import opened Enums
  import opened ClientTypes
  import ClientApi
  import Dtos
  import Entities
  import TicketService

  const StatusUpdated: string := "Status updated successfully"
  const UpdateFailed: string := "Failed to update ticket status"
  const TicketNotFound: string := "Ticket not found"
  const LoadFailed: string := "Failed to load ticket details"

  /** The menu of statuses for a ticket: its own status first, then the next one in the lifecycle. */
  function AvailableStatuses(current: TicketStatus): (r: seq<TicketStatus>)
    ensures r != [] && r[0] == current
    ensures forall s :: s in r ==> Rank(current) <= Rank(s) <= Rank(current) + 1
  {
    match current
    case Created => [Created, InProgress]
    case InProgress => [InProgress, Completed]
    case Completed => [Completed]
  }

  /**
   * The menu and the server agree: a status other than the current one is
   * offered exactly when the server accepts the move for a ticket that has an
   * assignee.
   */
  lemma MenuMatchesServer(current: TicketStatus, to: TicketStatus)
    requires to != current
    ensures to in AvailableStatuses(current) <==> TicketService.TransitionAllowed(current, to, true)
  {
  }

  /** Every offered move other than starting a ticket is accepted whatever the assignee. */
  lemma OfferedMovesAreAccepted(current: TicketStatus, to: TicketStatus, hasAssignee: bool)
    requires to in AvailableStatuses(current) && to != current
    requires current == Created ==> hasAssignee
    ensures TicketService.TransitionAllowed(current, to, hasAssignee)
  {
  }

  /** Only assignees and admins get the status controls. */
  predicate CanManage(user: Option<User>)
    ensures CanManage(user) <==> user.Some? && user.value.role != Requester
  {
    user.Some? && (user.value.role == Assignee || user.value.role == Admin)
  }

  /** Requesters only read. */
  predicate IsReadOnly(user: Option<User>)
    ensures IsReadOnly(user) <==> user.Some? && !CanManage(user)
  {
    user.Some? && user.value.role == Requester
  }

  /** A signed-in user either manages tickets or only reads them; without a user, neither. */
  lemma ManageXorReadOnly(user: Option<User>)
    ensures user.Some? ==> (CanManage(user) <==> !IsReadOnly(user))
    ensures user.None? ==> !CanManage(user) && !IsReadOnly(user)
  {
  }

  /** The data handed to the client's `updateTicket`. */
  datatype UpdateData = UpdateData(status: TicketStatus, assigneeId: Option<int>)

  /** An assignee who stored an assignee id sends it with every update. */
  function OwnAssigneeId(user: Option<User>): (r: Option<int>)
    ensures r.Some? <==> user.Some? && user.value.role == Assignee && TruthyInt(user.value.assigneeId)
    ensures r.Some? ==> r == user.value.assigneeId
  {
    if user.Some? && user.value.role == Assignee && TruthyInt(user.value.assigneeId) then user.value.assigneeId else None
  }

  /**
   * The request an Update click sends: nothing without a ticket, without a
   * chosen status or when the choice is the current status.
   */
  function StatusUpdateRequest(user: Option<User>, ticket: Option<Ticket>, newStatus: Option<TicketStatus>): (r: Option<UpdateData>)
    ensures r.Some? <==> ticket.Some? && newStatus.Some? && newStatus.value != ticket.value.status
    ensures r.Some? ==> r.value.status == newStatus.value && r.value.assigneeId == OwnAssigneeId(user)
  {
    if ticket.None? || newStatus.None? || newStatus.value == ticket.value.status then None
    else Some(UpdateData(newStatus.value, OwnAssigneeId(user)))
  }

  /** A completed ticket's menu holds only its own status, so no update is ever sent for it. */
  lemma CompletedSendsNothing(user: Option<User>, t: Ticket, newStatus: TicketStatus)
    requires t.status == Completed && newStatus in AvailableStatuses(t.status)
    ensures StatusUpdateRequest(user, Some(t), Some(newStatus)).None?
  {
  }

  /** The body the request becomes on the wire. */
  function RequestBody(d: UpdateData): (body: Dtos.Body)
    ensures body.Keys <= Dtos.UpdateTicketProperties && "status" in body
  {
    ClientApi.UpdateTicketBody(Some(StatusWire(d.status)), d.assigneeId)
  }

  /**
   * End to end: when an assignee with a stored id picks a status from the menu,
   * the server validates the body and moves its ticket to that status, assigned
   * to that assignee, changing nothing else.
   */
  lemma AssigneeUpdateSucceeds(user: User, t: Ticket, newStatus: TicketStatus, row: Entities.Ticket)
    requires user.role == Assignee && user.assigneeId.Some? && user.assigneeId.value >= 1
    requires newStatus in AvailableStatuses(t.status) && newStatus != t.status
    requires row.status == t.status
    ensures var req := StatusUpdateRequest(Some(user), Some(t), Some(newStatus));
      var v := Dtos.ValidateUpdateTicket(RequestBody(req.value));
      && v.Ok?
      && TicketService.UpdateTicket(row, v.value).Ok?
      && TicketService.UpdateTicket(row, v.value).value == row.(status := newStatus, assigneeId := user.assigneeId)
  {
    var req := StatusUpdateRequest(Some(user), Some(t), Some(newStatus));
    var body := RequestBody(req.value);
    assert body == map["status" := Dtos.JStr(StatusWire(newStatus)), "assignee_id" := Dtos.JNum(user.assigneeId.value)];
    var dto := Dtos.UpdateTicketDto(Dtos.Given(user.assigneeId.value), Dtos.Given(newStatus));
    assert Dtos.ValidateUpdateTicket(body) == Ok(dto);
    OfferedMovesAreAccepted(t.status, newStatus, true);
  }

  /**
   * An admin sends no assignee, so starting a ticket that has none is refused
   * by the server even though the menu offers it.
   */
  lemma AdminStartWithoutAssigneeFails(user: User, t: Ticket, row: Entities.Ticket)
    requires user.role == Admin && t.status == Created
    requires row.status == Created && !TicketService.HasAssignee(row.assigneeId)
    ensures InProgress in AvailableStatuses(t.status)
    ensures var req := StatusUpdateRequest(Some(user), Some(t), Some(InProgress));
      var v := Dtos.ValidateUpdateTicket(RequestBody(req.value));
      v.Ok? && TicketService.UpdateTicket(row, v.value).Err?
  {
    var req := StatusUpdateRequest(Some(user), Some(t), Some(InProgress));
    var body := RequestBody(req.value);
    assert body == map["status" := Dtos.JStr(StatusWire(InProgress))];
    assert Dtos.ValidateUpdateTicket(body) == Ok(Dtos.UpdateTicketDto(Dtos.Absent, Dtos.Given(InProgress)));
  }

  /** The Update button is enabled only while idle and when the choice differs from the current status. */
  predicate UpdateEnabled(updating: bool, newStatus: Option<TicketStatus>, t: Ticket)
    ensures UpdateEnabled(updating, newStatus, t) ==> !updating
    ensures newStatus.Some? ==>
      (UpdateEnabled(updating, newStatus, t) <==> !updating && StatusUpdateRequest(None, Some(t), newStatus).Some?)
  {
    !updating && newStatus != Some(t.status)
  }

  /** The modal's state. */
  class DetailModal {
    var ticket: Option<Ticket>
    var newStatus: Option<TicketStatus>
    var loading: bool
    var updating: bool
    var error: Option<string>
    var successMessage: Option<string>

    constructor()
      ensures ticket.None? && newStatus.None? && !loading && !updating
      ensures error.None? && successMessage.None?
    {
      ticket := None;
      newStatus := None;
      loading := false;
      updating := false;
      error := None;
      successMessage := None;
    }

    /** Showing a ticket also selects its status in the menu. */
    method ShowTicket(t: Ticket)
      modifies this
      ensures ticket == Some(t) && newStatus == Some(t.status)
      ensures loading == old(loading) && updating == old(updating)
      ensures error == old(error) && successMessage == old(successMessage)
    {
      ticket := Some(t);
      newStatus := Some(t.status);
    }

    /** Choosing a status from the menu. */
    method SelectStatus(s: TicketStatus)
      modifies this
      ensures newStatus == Some(s)
      ensures ticket == old(ticket) && loading == old(loading) && updating == old(updating)
      ensures error == old(error) && successMessage == old(successMessage)
    {
      newStatus := Some(s);
    }

    /**
     * Loading ticket `ticketId`; `response` is what the fetch gave: a ticket,
     * nothing for an unknown id, or a failure.
     */
    method LoadTicket(ticketId: Option<int>, response: Result<Option<Ticket>, string>)
      modifies this
      ensures !TruthyInt(ticketId) ==>
        ticket == old(ticket) && newStatus == old(newStatus) && loading == old(loading)
        && updating == old(updating) && error == old(error) && successMessage == old(successMessage)
      ensures TruthyInt(ticketId) ==> !loading && successMessage.None? && updating == old(updating)
      ensures TruthyInt(ticketId) && response.Ok? && response.value.Some? ==>
        ticket == response.value && newStatus == Some(response.value.value.status) && error.None?
      ensures TruthyInt(ticketId) && response.Ok? && response.value.None? ==>
        ticket == old(ticket) && newStatus == old(newStatus) && error == Some(TicketNotFound)
      ensures TruthyInt(ticketId) && response.Err? ==>
        ticket == old(ticket) && newStatus == old(newStatus) && error == Some(LoadFailed)
    {
      if !TruthyInt(ticketId) {
        return;
      }
      loading := true;
      error := None;
      successMessage := None;
      match response {
        case Ok(found) =>
          if found.Some? {
            ShowTicket(found.value);
          } else {
            error := Some(TicketNotFound);
          }
        case Err(_) =>
          error := Some(LoadFailed);
      }
      loading := false;
    }

    /**
     * An Update click. `response` is what the server answered to the request
     * sent, if one is sent; the request itself is returned.
     */
    method HandleStatusUpdate(user: Option<User>, response: Result<Ticket, string>) returns (sent: Option<UpdateData>)
      modifies this
      ensures sent == StatusUpdateRequest(user, old(ticket), old(newStatus))
      ensures sent.None? ==>
        ticket == old(ticket) && newStatus == old(newStatus) && loading == old(loading)
        && updating == old(updating) && error == old(error) && successMessage == old(successMessage)
      ensures sent.Some? ==> !updating && loading == old(loading)
      ensures sent.Some? && response.Ok? ==>
        ticket == Some(response.value) && newStatus == Some(response.value.status)
        && error.None? && successMessage == Some(StatusUpdated)
      ensures sent.Some? && response.Err? ==>
        ticket == old(ticket) && newStatus == old(newStatus)
        && error == Some(UpdateFailed) && successMessage.None?
    {
      sent := StatusUpdateRequest(user, ticket, newStatus);
      if sent.None? {
        return;
      }
      updating := true;
      error := None;
      successMessage := None;
      match response {
        case Ok(updated) =>
          ShowTicket(updated);
          successMessage := Some(StatusUpdated);
        case Err(_) =>
          error := Some(UpdateFailed);
      }
      updating := false;
    }
  }
}
