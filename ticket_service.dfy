/**
 * The ticket service: creating a ticket, listing with filters, lookup by id,
 * the status workflow created -> in_progress -> completed, assignment and
 * finalisation. Each operation is a function of the ticket table (a map from
 * ticket id to row); `Database.Store` applies them to its state.
 */
module TicketService {
  import opened Wrappers
  import opened Text
  import opened Enums
  import opened Entities
  import opened Errors
  import opened Dtos

  /** The filters `findAll` receives; a missing filter is `None`. */
  datatype FindAllFilters = FindAllFilters(
    status: Option<TicketStatus>,
    requesterId: Option<int>,
    requesterName: Option<string>,
    assigneeId: Option<int>)

  const NoFilters: FindAllFilters := FindAllFilters(None, None, None, None)

  /** The controller's spread of the validated query: only truthy values become filters. */
  function FiltersOf(q: FindAllQueryDto): (f: FindAllFilters)
    ensures f.status == q.status
    ensures f.requesterId.Some? <==> TruthyInt(q.requesterId)
    ensures f.requesterName.Some? <==> TruthyString(q.requesterName)
    ensures f.assigneeId.Some? <==> TruthyInt(q.assigneeId)
    ensures f.requesterId.Some? ==> f.requesterId == q.requesterId
    ensures f.requesterName.Some? ==> f.requesterName == q.requesterName
    ensures f.assigneeId.Some? ==> f.assigneeId == q.assigneeId
  {
    FindAllFilters(
      q.status,
      if TruthyInt(q.requesterId) then q.requesterId else None,
      if TruthyString(q.requesterName) then q.requesterName else None,
      if TruthyInt(q.assigneeId) then q.assigneeId else None)
  }

  /** A WHERE condition the query builder adds. */
  datatype Condition =
    | StatusIs(status: TicketStatus)
    | RequesterIdIs(requesterId: int)
    | RequesterNameIs(requesterName: string)
    | AssigneeIdIs(assigneeId: int)

  /** SQL `=`: a NULL column equals nothing. */
  predicate Holds(c: Condition, t: Ticket) {
    match c
    case StatusIs(s) => t.status == s
    case RequesterIdIs(n) => t.requesterId == n
    case RequesterNameIs(n) => t.requesterName == Some(n)
    case AssigneeIdIs(n) => t.assigneeId == Some(n)
  }

  /** The conditions `findAll` adds with `andWhere`, in order, one per truthy filter. */
  function Conditions(f: FindAllFilters): seq<Condition> {
    var c0: seq<Condition> := [];
    var c1 := if f.status.Some? then c0 + [StatusIs(f.status.value)] else c0;
    var c2 := if TruthyInt(f.requesterId) then c1 + [RequesterIdIs(f.requesterId.value)] else c1;
    var c3 := if TruthyString(f.requesterName) then c2 + [RequesterNameIs(f.requesterName.value)] else c2;
    if TruthyInt(f.assigneeId) then c3 + [AssigneeIdIs(f.assigneeId.value)] else c3
  }

  /** `findAll`: the rows that satisfy every condition (the query has no ORDER BY). */
  function FindAll(tickets: map<int, Ticket>, f: FindAllFilters): (r: map<int, Ticket>)
    ensures r.Keys <= tickets.Keys
    ensures forall id :: id in r ==> r[id] == tickets[id]
  {
    map id | id in tickets && forall c :: c in Conditions(f) ==> Holds(c, tickets[id]) :: tickets[id]
  }

  /** The filters read field by field: a falsy filter (0, the empty string) constrains nothing. */
  predicate MatchesFilters(f: FindAllFilters, t: Ticket) {
    && (f.status.Some? ==> t.status == f.status.value)
    && (TruthyInt(f.requesterId) ==> t.requesterId == f.requesterId.value)
    && (TruthyString(f.requesterName) ==> t.requesterName == f.requesterName)
    && (TruthyInt(f.assigneeId) ==> t.assigneeId == f.assigneeId)
  }

  /** The query built condition by condition returns exactly the rows matching the filters. */
  lemma FindAllIsFiltering(tickets: map<int, Ticket>, f: FindAllFilters, id: int)
    ensures id in FindAll(tickets, f) <==> id in tickets && MatchesFilters(f, tickets[id])
  {
    if id in tickets {
      var t := tickets[id];
      var cs := Conditions(f);
      if MatchesFilters(f, t) {
        forall c | c in cs ensures Holds(c, t) {
        }
      } else {
        if f.status.Some? && t.status != f.status.value {
          assert StatusIs(f.status.value) in cs;
        } else if TruthyInt(f.requesterId) && t.requesterId != f.requesterId.value {
          assert RequesterIdIs(f.requesterId.value) in cs;
        } else if TruthyString(f.requesterName) && t.requesterName != f.requesterName {
          assert RequesterNameIs(f.requesterName.value) in cs;
        } else {
          assert AssigneeIdIs(f.assigneeId.value) in cs;
        }
      }
    }
  }

  /** Without filters every ticket is listed. */
  lemma FindAllWithoutFilters(tickets: map<int, Ticket>)
    ensures FindAll(tickets, NoFilters) == tickets
  {
    assert Conditions(NoFilters) == [];
  }

  /** A ticket without a requester name is never returned by a requester-name filter. */
  lemma NullNameNeverMatches(tickets: map<int, Ticket>, f: FindAllFilters, id: int)
    requires id in tickets && tickets[id].requesterName.None?
    requires TruthyString(f.requesterName)
    ensures id !in FindAll(tickets, f)
  {
    FindAllIsFiltering(tickets, f, id);
  }

  /** `createTicket`: the row built from a validated body; the database assigns `id`. */
  function CreateTicket(dto: CreateTicketDto, id: int): (t: Ticket)
    ensures t.ticketId == id
    ensures t.status == Created
    ensures t.requesterId == dto.requesterId
    ensures t.requesterName.Some? <==> dto.requesterName != ""
    ensures t.requesterName.Some? ==> t.requesterName.value == dto.requesterName
    ensures t.assigneeId.Some? <==> dto.assigneeId.Given?
    ensures t.assigneeId.Some? ==> t.assigneeId.value == dto.assigneeId.value
    ensures t.topicId.None? && t.topicNameSnapshot.None?
    ensures t.priority == dto.priority && t.description == dto.description
  {
    Ticket(
      ticketId := id,
      requesterId := dto.requesterId,
      requesterName := if dto.requesterName != "" then Some(dto.requesterName) else None,
      assigneeId := dto.assigneeId.OrNull(),
      topicId := None,
      topicNameSnapshot := None,
      priority := dto.priority,
      status := DefaultStatus,
      description := dto.description)
  }

  /**
   * A ticket created from any body the validation pipe accepts starts in
   * `created`, carries the requester's name, and any assignee it names is positive.
   */
  lemma CreatedFromValidBody(body: Body, id: int)
    requires ValidateCreateTicket(body).Ok?
    ensures var t := CreateTicket(ValidateCreateTicket(body).value, id);
      && t.status == Created
      && t.requesterName.Some?
      && t.requesterId >= 1
      && (t.assigneeId.Some? ==> t.assigneeId.value >= 1)
  {
  }

  /** `findById`. */
  function FindById(tickets: map<int, Ticket>, id: int): (r: Result<Ticket, HttpError>)
    ensures r.Ok? <==> id in tickets
    ensures r.Ok? ==> r.value == tickets[id] && r.value in tickets.Values
    ensures r.Err? ==> r.error == NotFound("Ticket with ID " + IntToString(id) + " not found")
  {
    if id in tickets then Ok(tickets[id])
    else Err(NotFound("Ticket with ID " + IntToString(id) + " not found"))
  }

  const CompletedIsFinal: string := "Cannot change status of a completed ticket"
  const AssigneeRequired: string := "Assignee ID must be provided to move ticket to \"in_progress\" status"
  const StartBeforeCompleting: string :=
    "Cannot transition from \"created\" to \"completed\". Ticket must be \"in_progress\" first."
  const AlreadyCompleted: string := "Ticket is already completed"

  /** `!assigneeId`: no assignee, or assignee 0. */
  predicate HasAssignee(a: Option<int>) {
    TruthyInt(a)
  }

  /**
   * The workflow as a table: staying in `created` or `in_progress`,
   * created -> in_progress when there is an assignee, in_progress -> completed.
   * A completed ticket never changes.
   */
  predicate TransitionAllowed(from: TicketStatus, to: TicketStatus, hasAssignee: bool)
    ensures TransitionAllowed(from, to, hasAssignee) && from != to ==> Rank(to) == Rank(from) + 1
    ensures from == Completed ==> !TransitionAllowed(from, to, hasAssignee)
    ensures from == Created && to == InProgress ==> (TransitionAllowed(from, to, hasAssignee) <==> hasAssignee)
  {
    || (from == to && from != Completed)
    || (from == Created && to == InProgress && hasAssignee)
    || (from == InProgress && to == Completed)
  }

  /** How a requested status renders in a message: a JSON `null` prints as `null`. */
  function RequestedWire(s: Option<TicketStatus>): string {
    if s.Some? then StatusWire(s.value) else "null"
  }

  /** `validateStatusTransition`; `requested` is `None` when the body sent `"status": null`. */
  function ValidateStatusTransition(current: TicketStatus, requested: Option<TicketStatus>, assigneeId: Option<int>): (r: Outcome<HttpError>)
    ensures r.Pass? <==> requested.Some? && TransitionAllowed(current, requested.value, HasAssignee(assigneeId))
    ensures r.Fail? ==> r.error.BadRequest?
    ensures current == Completed ==> r == Fail(BadRequest(CompletedIsFinal))
    ensures current == Created && requested == Some(InProgress) && !HasAssignee(assigneeId) ==>
      r == Fail(BadRequest(AssigneeRequired))
    ensures current == Created && requested == Some(Completed) ==>
      r == Fail(BadRequest(StartBeforeCompleting))
    ensures current == Created && requested.None? ==>
      r == Fail(BadRequest("Invalid status transition from " + Quoted("created") + " to " + Quoted("null")))
    ensures current == InProgress && requested == Some(Created) ==>
      r == Fail(BadRequest("Invalid status transition from " + Quoted("in_progress") + " to " + Quoted("created") + ". Only \"completed\" is allowed."))
    ensures current == InProgress && requested.None? ==>
      r == Fail(BadRequest("Invalid status transition from " + Quoted("in_progress") + " to " + Quoted("null") + ". Only \"completed\" is allowed."))
  {
    match current
    case Created =>
      if requested == Some(InProgress) then
        if !HasAssignee(assigneeId) then
          Fail(BadRequest(AssigneeRequired))
        else Pass
      else if requested == Some(Completed) then
        Fail(BadRequest(StartBeforeCompleting))
      else if requested == Some(Created) then
        Pass
      else
        Fail(BadRequest("Invalid status transition from " + Quoted(StatusWire(current)) + " to " + Quoted(RequestedWire(requested))))
    case InProgress =>
      if requested == Some(Completed) then Pass
      else if requested == Some(InProgress) then Pass
      else
        Fail(BadRequest("Invalid status transition from " + Quoted(StatusWire(current)) + " to "
          + Quoted(RequestedWire(requested)) + ". Only \"completed\" is allowed."))
    case Completed =>
      Fail(BadRequest(CompletedIsFinal))
  }

  /** An allowed transition never moves backwards and never skips `in_progress`. */
  lemma TransitionsAreMonotone(from: TicketStatus, to: TicketStatus, hasAssignee: bool)
    requires TransitionAllowed(from, to, hasAssignee)
    ensures Rank(from) <= Rank(to) <= Rank(from) + 1
    ensures from == Completed ==> false
  {
  }

  /** `a ?? b` on nullable values. */
  function Coalesce<T>(a: Option<T>, b: Option<T>): Option<T> {
    if a.Some? then a else b
  }

  /**
   * `updateTicket` on a found row: the assignee is applied first (a `null`
   * assignee unassigns), then a requested status is checked against the
   * assignee the ticket now has.
   */
  function UpdateTicket(t: Ticket, dto: UpdateTicketDto): (r: Result<Ticket, HttpError>)
    ensures var assignee := if dto.assigneeId.Absent? then t.assigneeId else dto.assigneeId.OrNull();
      && (r.Ok? <==> dto.status.Absent? || (dto.status.Given? && TransitionAllowed(t.status, dto.status.value, HasAssignee(assignee))))
      && (r.Ok? ==> r.value.assigneeId == assignee)
    ensures r.Ok? ==> r.value.status == (if dto.status.Given? then dto.status.value else t.status)
    ensures r.Ok? ==> r.value.(assigneeId := t.assigneeId, status := t.status) == t
    ensures r.Err? ==> r.error.BadRequest?
  {
    var withAssignee := if dto.assigneeId.Absent? then t else t.(assigneeId := dto.assigneeId.OrNull());
    if dto.status.Absent? then Ok(withAssignee)
    else
      var effective := Coalesce(withAssignee.assigneeId, Coalesce(dto.assigneeId.OrNull(), None));
      match ValidateStatusTransition(withAssignee.status, dto.status.OrNull(), effective)
      case Fail(e) => Err(e)
      case Pass => Ok(withAssignee.(status := dto.status.value))
  }

  /** A `null` status is rejected whatever the ticket's state. */
  lemma NullStatusIsRejected(t: Ticket, assignee: Field<int>)
    ensures UpdateTicket(t, UpdateTicketDto(assignee, Null)).Err?
  {
  }

  /** Assigning and starting in one request succeeds from `created`: the new assignee counts. */
  lemma AssignAndStartTogether(t: Ticket, assignee: int)
    requires t.status == Created && assignee >= 1
    ensures UpdateTicket(t, UpdateTicketDto(Given(assignee), Given(InProgress)))
      == Ok(t.(assigneeId := Some(assignee), status := InProgress))
  {
  }

  /** Unassigning while starting fails even when the ticket had an assignee. */
  lemma UnassignAndStartFails(t: Ticket)
    requires t.status == Created
    ensures UpdateTicket(t, UpdateTicketDto(Null, Given(InProgress)))
      == Err(BadRequest(AssigneeRequired))
  {
  }

  /** A completed ticket can still be (re)assigned, but its status is frozen. */
  lemma CompletedTicketIsFrozen(t: Ticket, dto: UpdateTicketDto)
    requires t.status == Completed
    ensures UpdateTicket(t, dto).Ok? <==> dto.status.Absent?
    ensures UpdateTicket(t, dto).Ok? ==> UpdateTicket(t, dto).value.status == Completed
  {
  }

  /** `finalizeTicket` on a found row. */
  function FinalizeTicket(t: Ticket): (r: Result<Ticket, HttpError>)
    ensures r.Ok? <==> t.status == InProgress
    ensures r.Ok? ==> r.value == t.(status := Completed)
    ensures t.status == Completed ==> r == Err(BadRequest(AlreadyCompleted))
    ensures r.Err? ==> r.error.BadRequest?
  {
    if t.status == Completed then
      Err(BadRequest(AlreadyCompleted))
    else if t.status != InProgress then
      Err(BadRequest("Cannot finalize ticket with status " + Quoted(StatusWire(t.status))
        + ". Ticket must be \"in_progress\" to be finalized."))
    else
      Ok(t.(status := Completed))
  }

  /** Finalising is the update to `completed` without touching the assignee. */
  lemma FinalizeAgreesWithUpdate(t: Ticket)
    ensures FinalizeTicket(t).Ok? <==> UpdateTicket(t, UpdateTicketDto(Absent, Given(Completed))).Ok?
    ensures FinalizeTicket(t).Ok? ==>
      FinalizeTicket(t).value == UpdateTicket(t, UpdateTicketDto(Absent, Given(Completed))).value
  {
  }

  /** `updateTicket(id, dto)`: look the row up, then update it. */
  function UpdateById(tickets: map<int, Ticket>, id: int, dto: UpdateTicketDto): (r: Result<Ticket, HttpError>)
    ensures id !in tickets ==> r == FindById(tickets, id)
    ensures id in tickets ==> r == UpdateTicket(tickets[id], dto)
  {
    match FindById(tickets, id)
    case Err(e) => Err(e)
    case Ok(t) => UpdateTicket(t, dto)
  }

  /** `finalizeTicket(id)`: look the row up, then finalise it. */
  function FinalizeById(tickets: map<int, Ticket>, id: int): (r: Result<Ticket, HttpError>)
    ensures id !in tickets ==> r == FindById(tickets, id)
    ensures id in tickets ==> r == FinalizeTicket(tickets[id])
  {
    match FindById(tickets, id)
    case Err(e) => Err(e)
    case Ok(t) => FinalizeTicket(t)
  }

  /** Saving an updated row: the table with `id` replaced when the update succeeded. */
  function Saved(tickets: map<int, Ticket>, id: int, r: Result<Ticket, HttpError>): map<int, Ticket> {
    if r.Ok? then tickets[id := r.value] else tickets
  }

  /** Updates and finalisation only ever move statuses forward, one step at a time. */
  lemma UpdatesMoveForward(tickets: map<int, Ticket>, id: int, dto: UpdateTicketDto)
    ensures var after := Saved(tickets, id, UpdateById(tickets, id, dto));
      && after.Keys == tickets.Keys
      && forall k :: k in tickets ==> Rank(tickets[k].status) <= Rank(after[k].status) <= Rank(tickets[k].status) + 1
  {
    var r := UpdateById(tickets, id, dto);
    if r.Ok? && dto.status.Given? {
      var assignee := if dto.assigneeId.Absent? then tickets[id].assigneeId else dto.assigneeId.OrNull();
      TransitionsAreMonotone(tickets[id].status, dto.status.value, HasAssignee(assignee));
    }
  }
}
