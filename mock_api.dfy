/**
 * The client's in-memory stand-in for the server: two arrays of records that
 * are appended to and whose found records are changed in place. Unlike the
 * server, it applies any status change it is given.
 */
module MockApi {
  import opened Wrappers
  import opened Enums
  import opened ClientTypes
  import opened Lists
  import ClientApi
  import TicketService

  const SupportAgent: string := "Support Agent"
  const TicketNotFound: string := "Ticket not found"
  const TopicNotFound: string := "Topic not found"

  const SeedTopics: seq<Topic> := [
    Topic(1, "Technical Support", 1, true),
    Topic(2, "Billing", 1, true),
    Topic(3, "Feature Request", 1, true),
    Topic(4, "Bug Report", 1, true),
    Topic(5, "General Inquiry", 1, false)]

  const SeedTickets: seq<Ticket> := [
    Ticket(1, 1, "John Doe", "Dashboard Access Issue", Some(2), 1, High, InProgress,
           "Unable to access the dashboard after latest update", None, None),
    Ticket(2, 1, "John Doe", "Dark Mode Feature Request", None, 3, Medium, Created,
           "Would like to see dark mode support", None, None),
    Ticket(3, 3, "Alice Johnson", "Payment Processing Error", Some(2), 2, High, Completed,
           "Payment not processed for invoice #1234", None, None),
    Ticket(4, 4, "Bob Smith", "Mobile UI Alignment", None, 4, Low, Created,
           "Minor UI alignment issue on mobile", None, None)]

  /** `find`: the index of the first element that matches. */
  function FirstIndex<T>(s: seq<T>, matches: T -> bool): (r: Option<nat>)
    ensures r.Some? ==> r.value < |s| && matches(s[r.value])
    ensures r.Some? ==> forall j :: 0 <= j < r.value ==> !matches(s[j])
    ensures r.None? ==> forall j :: 0 <= j < |s| ==> !matches(s[j])
  {
    if s == [] then None
    else if matches(s[0]) then Some(0)
    else match FirstIndex(s[1..], matches)
      case None => None
      case Some(k) => Some(k + 1)
  }

  function TicketIndex(tickets: seq<Ticket>, id: int): Option<nat> {
    FirstIndex(tickets, (t: Ticket) => t.id == id)
  }

  function TopicIndex(topics: seq<Topic>, id: int): Option<nat> {
    FirstIndex(topics, (t: Topic) => t.id == id)
  }

  /** Each record's id is its position plus one. */
  predicate TicketIdsArePositions(tickets: seq<Ticket>) {
    forall i :: 0 <= i < |tickets| ==> tickets[i].id == i + 1
  }

  predicate TopicIdsArePositions(topics: seq<Topic>) {
    forall i :: 0 <= i < |topics| ==> topics[i].id == i + 1
  }

  /** With ids equal to positions plus one, ids are distinct and `find` lands on position `id - 1`. */
  lemma TicketLookupByPosition(tickets: seq<Ticket>, id: int)
    requires TicketIdsArePositions(tickets)
    ensures forall i, j :: 0 <= i < j < |tickets| ==> tickets[i].id != tickets[j].id
    ensures TicketIndex(tickets, id) == if 1 <= id <= |tickets| then Some(id - 1) else None
  {
    var r := TicketIndex(tickets, id);
    if 1 <= id <= |tickets| {
      assert tickets[id - 1].id == id;
    }
    if r.Some? {
      assert tickets[r.value].id == r.value + 1;
    }
  }

  lemma TopicLookupByPosition(topics: seq<Topic>, id: int)
    requires TopicIdsArePositions(topics)
    ensures forall i, j :: 0 <= i < j < |topics| ==> topics[i].id != topics[j].id
    ensures TopicIndex(topics, id) == if 1 <= id <= |topics| then Some(id - 1) else None
  {
    var r := TopicIndex(topics, id);
    if 1 <= id <= |topics| {
      assert topics[id - 1].id == id;
    }
    if r.Some? {
      assert topics[r.value].id == r.value + 1;
    }
  }

  /** The topic with that id, if any. */
  function TopicById(topics: seq<Topic>, id: int): (r: Option<Topic>)
    ensures r.Some? ==> r.value in topics && r.value.id == id
    ensures r.None? ==> forall t :: t in topics ==> t.id != id
  {
    match TopicIndex(topics, id)
    case None => None
    case Some(k) => Some(topics[k])
  }

  /** A stored ticket as a read returns it: with its topic looked up and a generic assignee. */
  function Enrich(topics: seq<Topic>, t: Ticket): (r: Ticket)
    ensures r.(topic := t.topic, assignee := t.assignee) == t
    ensures r.topic == TopicById(topics, t.topicId)
    ensures r.assignee.Some? <==> TruthyInt(t.assigneeId)
  {
    t.(topic := TopicById(topics, t.topicId),
       assignee := if TruthyInt(t.assigneeId) then Some(AssigneeRef(t.assigneeId.value, SupportAgent)) else None)
  }

  function EnrichAll(topics: seq<Topic>, tickets: seq<Ticket>): (r: seq<Ticket>)
    ensures |r| == |tickets|
    ensures forall i :: 0 <= i < |r| ==> r[i] == Enrich(topics, tickets[i])
  {
    seq(|tickets|, i requires 0 <= i < |tickets| => Enrich(topics, tickets[i]))
  }

  /** The tickets of one requester, in stored order; a falsy id means every ticket. */
  function ByRequester(tickets: seq<Ticket>, requesterId: Option<int>): (r: seq<Ticket>)
    ensures |r| <= |tickets|
    ensures !TruthyInt(requesterId) ==> r == tickets
    ensures TruthyInt(requesterId) ==> forall t :: t in r <==> t in tickets && t.requesterId == requesterId.value
  {
    if TruthyInt(requesterId) then Keep(tickets, (t: Ticket) => t.requesterId == requesterId.value) else tickets
  }

  /**
   * The in-place update: a given status and a given assignee overwrite the
   * stored ones, with no check of the lifecycle; nothing else changes.
   */
  function Updated(t: Ticket, status: Option<TicketStatus>, assigneeId: Option<int>): (r: Ticket)
    ensures r.status == (if status.Some? then status.value else t.status)
    ensures r.assigneeId == (if assigneeId.Some? then assigneeId else t.assigneeId)
    ensures r.(status := t.status, assigneeId := t.assigneeId) == t
  {
    var withStatus := if status.Some? then t.(status := status.value) else t;
    if assigneeId.Some? then withStatus.(assigneeId := assigneeId) else withStatus
  }

  /**
   * The stand-in accepts moves the server refuses: a completed ticket can be
   * sent back to created, and a ticket can be started without an assignee.
   */
  lemma UpdateSkipsLifecycle(t: Ticket)
    ensures t.status == Completed ==>
      Updated(t, Some(Created), None).status == Created
      && !TicketService.TransitionAllowed(Completed, Created, TicketService.HasAssignee(t.assigneeId))
    ensures t.status == Created && t.assigneeId.None? ==>
      Updated(t, Some(InProgress), None).status == InProgress
      && !TicketService.TransitionAllowed(Created, InProgress, TicketService.HasAssignee(t.assigneeId))
  {
  }

  /** A record as it is kept: tickets are stored without their topic and assignee. */
  predicate Stored(t: Ticket) {
    t.topic.None? && t.assignee.None?
  }

  class MockStore {
    var tickets: seq<Ticket>
    var topics: seq<Topic>

    ghost predicate Valid()
      reads this
    {
      && TicketIdsArePositions(tickets)
      && TopicIdsArePositions(topics)
      && forall i :: 0 <= i < |tickets| ==> Stored(tickets[i])
    }

    constructor()
      ensures tickets == SeedTickets && topics == SeedTopics
      ensures Valid()
    {
      tickets := SeedTickets;
      topics := SeedTopics;
    }

    method FetchTickets(requesterId: Option<int>) returns (r: seq<Ticket>)
      ensures r == EnrichAll(topics, ByRequester(tickets, requesterId))
    {
      r := EnrichAll(topics, ByRequester(tickets, requesterId));
    }

    method FetchTicket(id: int) returns (r: Option<Ticket>)
      ensures r.None? <==> forall i :: 0 <= i < |tickets| ==> tickets[i].id != id
      ensures r.Some? ==> TicketIndex(tickets, id).Some? && r.value == Enrich(topics, tickets[TicketIndex(tickets, id).value])
    {
      match TicketIndex(tickets, id)
      case None =>
        r := None;
      case Some(k) =>
        r := Some(Enrich(topics, tickets[k]));
    }

    method CreateTicket(requesterName: string, title: string, topicId: int, priority: TicketPriority,
                        description: string, requesterId: int) returns (r: Ticket)
      requires Valid()
      modifies this
      ensures Valid()
      ensures var created := Ticket(|old(tickets)| + 1, requesterId, requesterName, title, None, topicId,
                                    priority, Created, description, None, None);
        tickets == old(tickets) + [created] && r == created.(topic := TopicById(topics, topicId))
      ensures topics == old(topics)
    {
      var created := Ticket(|tickets| + 1, requesterId, requesterName, title, None, topicId,
                            priority, Created, description, None, None);
      tickets := tickets + [created];
      r := created.(topic := TopicById(topics, topicId));
    }

    method UpdateTicket(id: int, status: Option<TicketStatus>, assigneeId: Option<int>) returns (r: Result<Ticket, string>)
      requires Valid()
      modifies this
      ensures Valid()
      ensures TicketIndex(old(tickets), id).None? ==> r == Err(TicketNotFound) && tickets == old(tickets)
      ensures TicketIndex(old(tickets), id).Some? ==>
        var k := TicketIndex(old(tickets), id).value;
        tickets == old(tickets)[k := Updated(old(tickets)[k], status, assigneeId)]
        && r == Ok(Enrich(topics, tickets[k]))
      ensures topics == old(topics)
    {
      var found := TicketIndex(tickets, id);
      if found.None? {
        return Err(TicketNotFound);
      }
      var k := found.value;
      var ticket := tickets[k];
      if status.Some? {
        ticket := ticket.(status := status.value);
      }
      if assigneeId.Some? {
        ticket := ticket.(assigneeId := assigneeId);
      }
      tickets := tickets[k := ticket];
      r := Ok(Enrich(topics, ticket));
    }

    method FetchTopics() returns (r: seq<Topic>)
      ensures r == topics
    {
      r := topics;
    }

    method CreateTopic(name: string, organizationId: int) returns (r: Topic)
      requires Valid()
      modifies this
      ensures Valid()
      ensures r == Topic(|old(topics)| + 1, name, organizationId, true)
      ensures topics == old(topics) + [r] && tickets == old(tickets)
    {
      r := Topic(|topics| + 1, name, organizationId, true);
      topics := topics + [r];
    }

    method UpdateTopic(id: int, name: Option<string>, active: Option<bool>) returns (r: Result<Topic, string>)
      requires Valid()
      modifies this
      ensures Valid()
      ensures TopicIndex(old(topics), id).None? ==> r == Err(TopicNotFound) && topics == old(topics)
      ensures TopicIndex(old(topics), id).Some? ==>
        var k := TopicIndex(old(topics), id).value;
        var t := old(topics)[k];
        var changed := t.(name := if TruthyString(name) then name.value else t.name,
                          active := if active.Some? then active.value else t.active);
        topics == old(topics)[k := changed] && r == Ok(changed)
      ensures tickets == old(tickets)
    {
      var found := TopicIndex(topics, id);
      if found.None? {
        return Err(TopicNotFound);
      }
      var k := found.value;
      var topic := topics[k];
      if TruthyString(name) {
        topic := topic.(name := name.value);
      }
      if active.Some? {
        topic := topic.(active := active.value);
      }
      topics := topics[k := topic];
      r := Ok(topic);
    }

    method FetchTicketStats(requesterId: Option<int>) returns (r: TicketStats)
      ensures r == ClientApi.Stats(ByRequester(tickets, requesterId))
      ensures r.created + r.inProgress + r.completed == r.total
    {
      r := ClientApi.Stats(ByRequester(tickets, requesterId));
    }
  }
}
