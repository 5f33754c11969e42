/**
 * The records the web client works with. Ticket status and priority are the
 * same three-valued unions as the server's enums, with the same strings, so
 * the client reuses `Enums.TicketStatus` and `Enums.TicketPriority`.
 * Creation and update timestamps are not modelled.
 */
module ClientTypes {
  import opened Wrappers
  import opened Enums

  datatype UserRole = Requester | Assignee | Admin

  const AllRoles: seq<UserRole> := [Requester, Assignee, Admin]

  function RoleWire(r: UserRole): string {
    match r
    case Requester => "requester"
    case Assignee => "assignee"
    case Admin => "admin"
  }

  /** The role a stored string names, if any. */
  function ParseRole(s: string): (r: Option<UserRole>)
    ensures r.Some? ==> RoleWire(r.value) == s
    ensures r.None? ==> forall role :: RoleWire(role) != s
  {
    if s == "requester" then Some(Requester)
    else if s == "assignee" then Some(Assignee)
    else if s == "admin" then Some(Admin)
    else None
  }

  /** There are exactly three roles, with distinct strings that read back as themselves. */
  lemma RolesAreExact()
    ensures forall r :: r in AllRoles
    ensures forall i, j :: 0 <= i < j < |AllRoles| ==> RoleWire(AllRoles[i]) != RoleWire(AllRoles[j])
    ensures forall r :: ParseRole(RoleWire(r)) == Some(r)
  {
    forall r ensures r in AllRoles {
      match r
      case Requester => assert AllRoles[0] == r;
      case Assignee => assert AllRoles[1] == r;
      case Admin => assert AllRoles[2] == r;
    }
  }

  /**
   * The signed-in user. `assigneeId` is only set for the assignee role and
   * `requesterName` only for the requester role.
   */
  datatype User = User(
    id: int,
    role: UserRole,
    organizationId: int,
    name: Option<string>,
    assigneeId: Option<int>,
    requesterName: Option<string>)

  datatype Topic = Topic(id: int, name: string, organizationId: int, active: bool)

  /** The display record of a ticket's assignee. */
  datatype AssigneeRef = AssigneeRef(id: int, name: string)

  /** A ticket as the pages show it: the server's description split into title and body. */
  datatype Ticket = Ticket(
    id: int,
    requesterId: int,
    requesterName: string,
    title: string,
    assigneeId: Option<int>,
    topicId: int,
    priority: TicketPriority,
    status: TicketStatus,
    description: string,
    topic: Option<Topic>,
    assignee: Option<AssigneeRef>)

  datatype TicketStats = TicketStats(total: nat, created: nat, inProgress: nat, completed: nat)
}
