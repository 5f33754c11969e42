/**
 * The dashboard: which tickets it loads for each role, the status, priority
 * and topic filters over the loaded list, and the assignee's split into
 * tickets assigned to them and unassigned tickets.
 */
module Dashboard {
  import opened Wrappers
  import opened Text
  import opened Enums
  import opened ClientTypes
  import opened Lists
  import ClientApi
  import Dtos
  import Entities
  import TicketService

  /** The filter value that turns a filter off. */
  const All: string := "all"

  /** The three select boxes: a status string, a priority string and a topic id as text, or "all". */
  datatype Filters = Filters(status: string, priority: string, topic: string)

  const NoFilters: Filters := Filters(All, All, All)

  /** The status filter alone. */
  predicate StatusPasses(f: Filters, t: Ticket) {
    f.status != All ==> StatusWire(t.status) == f.status
  }

  /** The priority filter alone. */
  predicate PriorityPasses(f: Filters, t: Ticket) {
    f.priority != All ==> PriorityWire(t.priority) == f.priority
  }

  /** The topic filter alone; the selected topic id is read with `parseInt`. */
  predicate TopicPasses(f: Filters, t: Ticket) {
    f.topic != All ==> ParseInt(f.topic) == Some(t.topicId)
  }

  /** A ticket passes every filter that is not "all". */
  predicate Matches(f: Filters, t: Ticket) {
    StatusPasses(f, t) && PriorityPasses(f, t) && TopicPasses(f, t)
  }

  /** The filter effect: one `filter` per filter that is not "all", applied in turn. */
  function FilterTickets(tickets: seq<Ticket>, f: Filters): (r: seq<Ticket>)
    ensures |r| <= |tickets|
    ensures forall t :: t in r <==> t in tickets && Matches(f, t)
  {
    var byStatus := if f.status != All then Keep(tickets, (t: Ticket) => StatusWire(t.status) == f.status) else tickets;
    var byPriority := if f.priority != All then Keep(byStatus, (t: Ticket) => PriorityWire(t.priority) == f.priority) else byStatus;
    if f.topic != All then Keep(byPriority, (t: Ticket) => ParseInt(f.topic) == Some(t.topicId)) else byPriority
  }

  /** Each conditional `filter` step is a filter by that step's predicate. */
  lemma StepsAreFilters(s: seq<Ticket>, f: Filters)
    ensures (if f.status != All then Keep(s, (t: Ticket) => StatusWire(t.status) == f.status) else s)
      == Keep(s, (t: Ticket) => StatusPasses(f, t))
    ensures (if f.priority != All then Keep(s, (t: Ticket) => PriorityWire(t.priority) == f.priority) else s)
      == Keep(s, (t: Ticket) => PriorityPasses(f, t))
    ensures (if f.topic != All then Keep(s, (t: Ticket) => ParseInt(f.topic) == Some(t.topicId)) else s)
      == Keep(s, (t: Ticket) => TopicPasses(f, t))
  {
    if f.status != All {
      KeepSame(s, (t: Ticket) => StatusWire(t.status) == f.status, (t: Ticket) => StatusPasses(f, t));
    } else {
      KeepEverything(s, (t: Ticket) => StatusPasses(f, t));
    }
    if f.priority != All {
      KeepSame(s, (t: Ticket) => PriorityWire(t.priority) == f.priority, (t: Ticket) => PriorityPasses(f, t));
    } else {
      KeepEverything(s, (t: Ticket) => PriorityPasses(f, t));
    }
    if f.topic != All {
      KeepSame(s, (t: Ticket) => ParseInt(f.topic) == Some(t.topicId), (t: Ticket) => TopicPasses(f, t));
    } else {
      KeepEverything(s, (t: Ticket) => TopicPasses(f, t));
    }
  }

  /** The successive filters are a single filter by `Matches`. */
  lemma FilterIsMatching(tickets: seq<Ticket>, f: Filters)
    ensures FilterTickets(tickets, f) == Keep(tickets, (t: Ticket) => Matches(f, t))
  {
    var byStatus := (t: Ticket) => StatusPasses(f, t);
    var byPriority := (t: Ticket) => PriorityPasses(f, t);
    var byTopic := (t: Ticket) => TopicPasses(f, t);
    var first2 := (t: Ticket) => StatusPasses(f, t) && PriorityPasses(f, t);
    StepsAreFilters(tickets, f);
    var s1 := Keep(tickets, byStatus);
    StepsAreFilters(s1, f);
    var s2 := Keep(s1, byPriority);
    StepsAreFilters(s2, f);
    KeepKeep(tickets, byStatus, byPriority, first2);
    KeepKeep(tickets, first2, byTopic, (t: Ticket) => Matches(f, t));
  }

  /**
   * A ticket is shown exactly when it was loaded and passes every filter, and
   * the shown tickets keep the loaded order.
   */
  lemma FilterKeepsMatchingInOrder(tickets: seq<Ticket>, f: Filters, t: Ticket)
    ensures t in FilterTickets(tickets, f) <==> t in tickets && Matches(f, t)
    ensures SubsequenceOf(FilterTickets(tickets, f), tickets)
  {
    FilterIsMatching(tickets, f);
    KeepIsSubsequence(tickets, (t: Ticket) => Matches(f, t));
  }

  /** With every filter on "all" the whole loaded list is shown. */
  lemma NoFiltersShowEverything(tickets: seq<Ticket>)
    ensures FilterTickets(tickets, NoFilters) == tickets
  {
  }

  /** An assignee with a stored id sees the shown tickets assigned to that id. */
  function AssignedTickets(user: Option<User>, shown: seq<Ticket>): (r: seq<Ticket>)
    ensures forall t :: t in r <==>
      && user.Some? && user.value.role == Assignee && TruthyInt(user.value.assigneeId)
      && t in shown && t.assigneeId == user.value.assigneeId
  {
    if user.Some? && user.value.role == Assignee && TruthyInt(user.value.assigneeId) then
      Keep(shown, (t: Ticket) => t.assigneeId == user.value.assigneeId)
    else []
  }

  /** An assignee sees the shown tickets that have no assignee. */
  function UnassignedTickets(user: Option<User>, shown: seq<Ticket>): (r: seq<Ticket>)
    ensures forall t :: t in r <==> user.Some? && user.value.role == Assignee && t in shown && !TruthyInt(t.assigneeId)
  {
    if user.Some? && user.value.role == Assignee then Keep(shown, (t: Ticket) => !TruthyInt(t.assigneeId)) else []
  }

  /**
   * The assignee's two lists: no ticket is in both, each is drawn from the
   * shown tickets, and a shown ticket is in neither only when it is assigned
   * to someone else. Other roles get two empty lists.
   */
  lemma AssigneeSplit(user: Option<User>, shown: seq<Ticket>, t: Ticket)
    ensures t in AssignedTickets(user, shown) ==> t !in UnassignedTickets(user, shown)
    ensures t in AssignedTickets(user, shown) || t in UnassignedTickets(user, shown) ==> t in shown
    ensures user.Some? && user.value.role == Assignee && TruthyInt(user.value.assigneeId) && t in shown ==>
      t in AssignedTickets(user, shown) || t in UnassignedTickets(user, shown)
      || (TruthyInt(t.assigneeId) && t.assigneeId != user.value.assigneeId)
    ensures user.None? || user.value.role != Assignee ==>
      AssignedTickets(user, shown) == [] && UnassignedTickets(user, shown) == []
  {
  }

  /** What the dashboard loads with: a requester's stored name, and nothing for the other roles. */
  function LoadArguments(user: Option<User>): (r: (Option<int>, Option<string>))
    ensures r.0.None?
    ensures r.1.Some? <==> user.Some? && user.value.role == Requester && TruthyString(user.value.requesterName)
    ensures r.1.Some? ==> r.1 == user.value.requesterName
  {
    if user.Some? && user.value.role == Requester && TruthyString(user.value.requesterName) then
      (None, user.value.requesterName)
    else (None, None)
  }

  /**
   * End to end: the server lists for a requester exactly the tickets whose
   * requester name is the stored one, and for the other roles every ticket.
   */
  lemma LoadedTicketsOnServer(user: Option<User>, rows: map<int, Entities.Ticket>, id: int)
    ensures var (requesterId, requesterName) := LoadArguments(user);
      var v := Dtos.ValidateFindAllQuery(ClientApi.TicketsQuery(requesterId, requesterName));
      && v.Ok?
      && (id in TicketService.FindAll(rows, TicketService.FiltersOf(v.value)) <==>
           id in rows && (requesterName.Some? ==> rows[id].requesterName == requesterName))
  {
    var (requesterId, requesterName) := LoadArguments(user);
    var v := Dtos.ValidateFindAllQuery(ClientApi.TicketsQuery(requesterId, requesterName));
    if requesterName.Some? {
      ClientApi.NameQueryReachesFindAll(requesterId, requesterName);
    } else {
      ClientApi.EmptyQueryListsEverything(requesterId, requesterName);
    }
    TicketService.FindAllIsFiltering(rows, TicketService.FiltersOf(v.value), id);
  }

  /** The topic filter offers only active topics. */
  function ActiveTopics(topics: seq<Topic>): (r: seq<Topic>)
    ensures forall t :: t in r <==> t in topics && t.active
    ensures SubsequenceOf(r, topics)
  {
    KeepIsSubsequence(topics, (t: Topic) => t.active);
    Keep(topics, (t: Topic) => t.active)
  }
}
