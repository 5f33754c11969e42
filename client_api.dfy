/**
 * The web client's side of the HTTP contract: how a ticket the server sends
 * is turned into the client's `Ticket` (the title is carried inside the
 * description, ahead of a blank line), the bodies and query strings the
 * client sends, and the ticket counts shown on the dashboard.
 */
module ClientApi {
  import opened Wrappers
  import opened Text
  import opened Enums
  import opened ClientTypes
  import opened Lists
  import Dtos
  import TicketService
  import Entities

  /** A topic object as the server serialises it; `isActive` may be missing. */
  datatype ServerTopic = ServerTopic(id: int, name: string, isActive: Option<bool>)

  /** A ticket object as the server serialises it: every field the client reads, each possibly missing. */
  datatype ServerTicket = ServerTicket(
    ticketId: int,
    requesterId: int,
    requesterName: Option<string>,
    assigneeId: Option<int>,
    topicId: Option<int>,
    topicName: Option<string>,
    topic: Option<ServerTopic>,
    priority: TicketPriority,
    status: TicketStatus,
    description: Option<string>)

  const Separator: string := "\n\n"
  const UntitledTicket: string := "Untitled Ticket"
  /** The longest first line used as a title as it is. */
  const TitleWidth: nat := 50
  /** The organisation every topic is given while the server has none. */
  const DefaultOrganizationId: int := 1

  /** A topic from the server: active unless `isActive` is exactly `false`. */
  function ClientTopic(t: ServerTopic, organizationId: int): (r: Topic)
    ensures r.id == t.id && r.name == t.name && r.organizationId == organizationId
    ensures r.active <==> t.isActive != Some(false)
  {
    Topic(t.id, t.name, organizationId, t.isActive != Some(false))
  }

  /**
   * The topic name shown for a ticket: the server's `topicName`, else the live
   * topic's name, else `Topic <id>` or `Topic Unknown`. It is never empty.
   */
  function TopicNameOf(b: ServerTicket): (r: string)
    ensures r != ""
    ensures TruthyString(b.topicName) ==> r == b.topicName.value
    ensures !TruthyString(b.topicName) && b.topic.Some? && b.topic.value.name != "" ==> r == b.topic.value.name
    ensures !TruthyString(b.topicName) && (b.topic.None? || b.topic.value.name == "") ==>
      r == "Topic " + (if TruthyInt(b.topicId) then IntToString(b.topicId.value) else "Unknown")
  {
    if TruthyString(b.topicName) then b.topicName.value
    else if b.topic.Some? && b.topic.value.name != "" then b.topic.value.name
    else "Topic " + (if TruthyInt(b.topicId) then IntToString(b.topicId.value) else "Unknown")
  }

  /** The live topic, or a placeholder for a deleted one that the ticket still references. */
  function LiveOrPlaceholder(b: ServerTicket): (r: Option<Topic>)
    ensures r.Some? <==> b.topic.Some? || TruthyInt(b.topicId)
  {
    if b.topic.Some? then Some(ClientTopic(b.topic.value, DefaultOrganizationId))
    else if TruthyInt(b.topicId) then Some(Topic(b.topicId.value, TopicNameOf(b), DefaultOrganizationId, false))
    else None
  }

  /** `title + "\n\n" + description`: how the client stores a title on a server without one. */
  function EncodeDescription(title: string, description: string): (r: string)
    ensures |r| == |title| + |Separator| + |description|
  {
    title + Separator + description
  }

  /**
   * Title and description recovered from the stored description. With a blank
   * line, `split("\n\n", 2)` gives the title and only the text up to the next
   * blank line; without one, the first line (cut to 50 characters and an
   * ellipsis) is the title and the description is kept whole.
   */
  function SplitDescription(stored: Option<string>): (r: (string, string))
    ensures var d := if TruthyString(stored) then stored.value else "";
      Contains(d, Separator) ==>
        var i := IndexOf(d, Separator).value;
        var second := Before(d[i + |Separator|..], Separator);
        && r.0 == (if i > 0 then d[..i] else UntitledTicket)
        && r.1 == (if second != "" then second else d)
    ensures var d := if TruthyString(stored) then stored.value else "";
      !Contains(d, Separator) ==> r.1 == d && |r.0| <= TitleWidth + 3 + |UntitledTicket|
    ensures TruthyString(stored) && !Contains(stored.value, Separator) ==>
      var firstLine := Before(stored.value, "\n");
      && (|firstLine| <= TitleWidth ==> r.0 == firstLine)
      && (|firstLine| > TitleWidth ==> r.0 == firstLine[..TitleWidth] + "...")
    ensures !TruthyString(stored) ==> r == (UntitledTicket, "")
  {
    var description := if TruthyString(stored) then stored.value else "";
    if Contains(description, Separator) then
      var parts := SplitTwo(description, Separator);
      (if parts[0] != "" then parts[0] else UntitledTicket, if parts[1] != "" then parts[1] else description)
    else if description != "" then
      var firstLine := Before(description, "\n");
      (if |firstLine| <= TitleWidth then firstLine else firstLine[..TitleWidth] + "...", description)
    else
      (UntitledTicket, description)
  }

  /** A ticket from the server in the client's shape. */
  function TransformTicket(b: ServerTicket): (r: Ticket)
    ensures r.id == b.ticketId && r.requesterId == b.requesterId
    ensures r.status == b.status && r.priority == b.priority
    ensures r.requesterName != ""
    ensures TruthyString(b.requesterName) ==> r.requesterName == b.requesterName.value
    ensures !TruthyString(b.requesterName) ==> r.requesterName == "User " + IntToString(b.requesterId)
    ensures (r.title, r.description) == SplitDescription(b.description)
    ensures r.assigneeId.Some? <==> TruthyInt(b.assigneeId)
    ensures r.assignee.Some? <==> TruthyInt(b.assigneeId)
    ensures r.assigneeId.Some? ==>
      && r.assigneeId == b.assigneeId
      && r.assignee == Some(AssigneeRef(b.assigneeId.value, "Agent " + IntToString(b.assigneeId.value)))
    ensures r.topic.Some?
    ensures b.topic.Some? ==> r.topic == Some(ClientTopic(b.topic.value, DefaultOrganizationId))
    ensures b.topic.None? ==> !r.topic.value.active && r.topic.value.name == TopicNameOf(b)
    ensures TruthyInt(b.topicId) ==> r.topicId == b.topicId.value
    ensures TruthyInt(b.topicId) && b.topic.None? ==> r.topic.value.id == b.topicId.value
    ensures b.topic.None? && !TruthyInt(b.topicId) ==>
      r.topic == Some(Topic(0, TopicNameOf(b), DefaultOrganizationId, false))
    ensures !TruthyInt(b.topicId) ==> r.topicId == r.topic.value.id
  {
    var topicName := TopicNameOf(b);
    var topic := LiveOrPlaceholder(b);
    var (title, description) := SplitDescription(b.description);
    Ticket(
      b.ticketId,
      b.requesterId,
      if TruthyString(b.requesterName) then b.requesterName.value else "User " + IntToString(b.requesterId),
      title,
      if TruthyInt(b.assigneeId) then b.assigneeId else None,
      if TruthyInt(b.topicId) then b.topicId.value
      else if topic.Some? && topic.value.id != 0 then topic.value.id
      else 0,
      b.priority,
      b.status,
      description,
      // Without a live or placeholder topic the id is falsy, so `topicId || 0` is 0.
      if topic.Some? then topic else Some(Topic(0, topicName, DefaultOrganizationId, false)),
      if TruthyInt(b.assigneeId) then Some(AssigneeRef(b.assigneeId.value, "Agent " + IntToString(b.assigneeId.value)))
      else None)
  }

  /** The first blank line of `title + "\n\n" + rest` is the one the encoding put there. */
  lemma SeparatorAfterTitle(title: string, rest: string)
    requires forall i :: 0 <= i < |title| ==> title[i] != '\n'
    ensures IndexOf(EncodeDescription(title, rest), Separator) == Some(|title|)
  {
    var s := EncodeDescription(title, rest);
    assert s[|title|..|title| + 2] == Separator;
    assert OccursAt(s, Separator, |title|);
    forall j | 0 <= j < |title| ensures !OccursAt(s, Separator, j) {
      assert s[j] == title[j];
    }
  }

  /**
   * Round trip: a title without line breaks and a description without a blank
   * line come back unchanged from their encoding.
   */
  lemma DescriptionRoundTrip(title: string, description: string)
    requires title != [] && forall i :: 0 <= i < |title| ==> title[i] != '\n'
    requires description != [] && !Contains(description, Separator)
    ensures SplitDescription(Some(EncodeDescription(title, description))) == (title, description)
  {
    var s := EncodeDescription(title, description);
    SeparatorAfterTitle(title, description);
    assert s[..|title|] == title;
    assert s[|title| + |Separator|..] == description;
  }

  /**
   * A description that itself holds a blank line loses everything from that
   * blank line on: `split` with a limit of 2 drops the remaining pieces.
   */
  lemma DescriptionTruncatedAtBlankLine(title: string, description: string)
    requires title != [] && forall i :: 0 <= i < |title| ==> title[i] != '\n'
    requires Contains(description, Separator)
    ensures var kept := Before(description, Separator);
      SplitDescription(Some(EncodeDescription(title, description)))
        == (title, if kept != [] then kept else EncodeDescription(title, description))
    ensures Before(description, Separator) != [] ==>
      |SplitDescription(Some(EncodeDescription(title, description))).1| < |description|
  {
    var s := EncodeDescription(title, description);
    SeparatorAfterTitle(title, description);
    assert s[..|title|] == title;
    assert s[|title| + |Separator|..] == description;
  }

  /** The query string of `GET /tickets`: a requester name wins over a requester id. */
  function TicketsQuery(requesterId: Option<int>, requesterName: Option<string>): (q: Dtos.Query)
    ensures TruthyString(requesterName) ==> q == map["requester_name" := requesterName.value]
    ensures !TruthyString(requesterName) && TruthyInt(requesterId) ==> q.Keys == {"requester_id"}
    ensures !TruthyString(requesterName) && !TruthyInt(requesterId) ==> q == map[]
  {
    if TruthyString(requesterName) then map["requester_name" := requesterName.value]
    else if TruthyInt(requesterId) then map["requester_id" := IntToString(requesterId.value)]
    else map[]
  }

  /** A requester name becomes exactly the server's requester-name filter. */
  lemma NameQueryReachesFindAll(requesterId: Option<int>, requesterName: Option<string>)
    requires TruthyString(requesterName)
    ensures var v := Dtos.ValidateFindAllQuery(TicketsQuery(requesterId, requesterName));
      v.Ok? && TicketService.FiltersOf(v.value) == TicketService.FindAllFilters(None, None, requesterName, None)
  {
  }

  /** Without a name, a positive requester id becomes exactly the server's requester-id filter. */
  lemma IdQueryReachesFindAll(requesterId: Option<int>, requesterName: Option<string>)
    requires !TruthyString(requesterName) && requesterId.Some? && requesterId.value >= 1
    ensures var v := Dtos.ValidateFindAllQuery(TicketsQuery(requesterId, requesterName));
      v.Ok? && TicketService.FiltersOf(v.value) == TicketService.FindAllFilters(None, requesterId, None, None)
  {
    var q := TicketsQuery(requesterId, requesterName);
    NumberOfDecimal(requesterId.value);
    assert Dtos.IsPositiveNumberString(q["requester_id"]);
  }

  /** Without a name, a negative requester id is refused by the server's query validation. */
  lemma NegativeIdQueryIsRefused(requesterId: Option<int>, requesterName: Option<string>)
    requires !TruthyString(requesterName) && requesterId.Some? && requesterId.value < 0
    ensures Dtos.ValidateFindAllQuery(TicketsQuery(requesterId, requesterName)).Err?
  {
    var q := TicketsQuery(requesterId, requesterName);
    var s := NatToString(-requesterId.value);
    assert q["requester_id"] == "-" + s;
    assert s[0] != '-' && !IsSpace(s[|s| - 1]);
    TrimOfTrimmed("-" + s);
    assert SplitSign("-" + s) == (-1, s);
    assert !Dtos.IsPositiveNumberString(q["requester_id"]);
  }

  /** Neither argument: no filter at all, so every ticket is listed. */
  lemma EmptyQueryListsEverything(requesterId: Option<int>, requesterName: Option<string>)
    requires !TruthyString(requesterName) && !TruthyInt(requesterId)
    ensures var v := Dtos.ValidateFindAllQuery(TicketsQuery(requesterId, requesterName));
      v.Ok? && TicketService.FiltersOf(v.value) == TicketService.NoFilters
  {
  }

  /** The client's new-ticket form data. `topicId` is `None` when `parseInt` gave `NaN`. */
  datatype NewTicket = NewTicket(
    requesterName: string,
    title: string,
    topicId: Option<int>,
    priority: string,
    description: string,
    requesterId: int)

  /** The body of `POST /tickets`; `NaN` is serialised as `null`. */
  function CreateTicketBody(data: NewTicket): (body: Dtos.Body)
    ensures body.Keys == {"requester_id", "requester_name", "topic_id", "priority", "description"}
    ensures body["description"] == Dtos.JStr(EncodeDescription(data.title, data.description))
    ensures body["requester_name"] == Dtos.JStr(Trim(data.requesterName))
    ensures body["requester_id"] == Dtos.JNum(data.requesterId)
    ensures body["priority"] == Dtos.JStr(data.priority)
    ensures body["topic_id"] == (if data.topicId.Some? then Dtos.JNum(data.topicId.value) else Dtos.JNull)
  {
    map[
      "requester_id" := Dtos.JNum(data.requesterId),
      "requester_name" := Dtos.JStr(Trim(data.requesterName)),
      "topic_id" := if data.topicId.Some? then Dtos.JNum(data.topicId.value) else Dtos.JNull,
      "priority" := Dtos.JStr(data.priority),
      "description" := Dtos.JStr(EncodeDescription(data.title, data.description))]
  }

  /**
   * The server refuses every ticket the client creates: the body names the
   * topic by `topic_id`, which the create-ticket body does not declare, and
   * leaves out the `topic` it requires.
   */
  lemma CreateTicketBodyIsRefused(data: NewTicket)
    ensures Dtos.ValidateCreateTicket(CreateTicketBody(data)).Err?
    ensures {"topic_id", "topic"} <= Dtos.ValidateCreateTicket(CreateTicketBody(data)).error
  {
    var body := CreateTicketBody(data);
    Dtos.CreateTicketRejectsUndeclared(body, "topic_id");
    assert "topic" in Dtos.CreateTicketErrors(body);
  }

  /** The body of `PATCH /tickets/:id`: a non-empty status, and the assignee when one is given. */
  function UpdateTicketBody(status: Option<string>, assigneeId: Option<int>): (body: Dtos.Body)
    ensures "status" in body <==> TruthyString(status)
    ensures "status" in body ==> body["status"] == Dtos.JStr(status.value)
    ensures "assignee_id" in body <==> assigneeId.Some?
    ensures "assignee_id" in body ==> body["assignee_id"] == Dtos.JNum(assigneeId.value)
    ensures body.Keys <= Dtos.UpdateTicketProperties
  {
    var b0: Dtos.Body := map[];
    var b1 := if TruthyString(status) then b0["status" := Dtos.JStr(status.value)] else b0;
    if assigneeId.Some? then b1["assignee_id" := Dtos.JNum(assigneeId.value)] else b1
  }

  /** The body of `POST /topics`: the name only. */
  function CreateTopicBody(name: string): (body: Dtos.Body)
    ensures body.Keys == Dtos.CreateTopicProperties && body["name"] == Dtos.JStr(name)
  {
    map["name" := Dtos.JStr(name)]
  }

  /** The body of `PATCH /topics/:id`: each field exactly when it is given; `active` travels as `isActive`. */
  function UpdateTopicBody(name: Option<string>, active: Option<bool>): (body: Dtos.Body)
    ensures "name" in body <==> name.Some?
    ensures "name" in body ==> body["name"] == Dtos.JStr(name.value)
    ensures "isActive" in body <==> active.Some?
    ensures "isActive" in body ==> body["isActive"] == Dtos.JBool(active.value)
    ensures body.Keys <= Dtos.UpdateTopicProperties
  {
    var b0: Dtos.Body := map[];
    var b1 := if name.Some? then b0["name" := Dtos.JStr(name.value)] else b0;
    if active.Some? then b1["isActive" := Dtos.JBool(active.value)] else b1
  }

  /**
   * A topic update body the client builds passes the server's validation
   * whenever a given name has 1 to 100 characters, and carries exactly the
   * fields that were given.
   */
  lemma UpdateTopicBodyIsAccepted(name: Option<string>, active: Option<bool>)
    requires name.Some? ==> 1 <= |name.value| <= Entities.TopicNameWidth
    ensures var v := Dtos.ValidateUpdateTopic(UpdateTopicBody(name, active));
      && v.Ok?
      && (v.value.name.Given? <==> name.Some?)
      && (v.value.isActive.Given? <==> active.Some?)
      && (name.Some? ==> v.value.name.value == name.value)
      && (active.Some? ==> v.value.isActive.value == active.value)
  {
  }

  /** `tickets.filter(t => t.status === s).length`. */
  function CountStatus(tickets: seq<Ticket>, s: TicketStatus): (n: nat)
    ensures n <= |tickets|
  {
    |Keep(tickets, (t: Ticket) => t.status == s)|
  }

  /**
   * The dashboard counts: the number of tickets and the number in each status,
   * which add up to the number of tickets.
   */
  function Stats(tickets: seq<Ticket>): (st: TicketStats)
    ensures st.total == |tickets|
    ensures st.created == CountStatus(tickets, Created)
    ensures st.inProgress == CountStatus(tickets, InProgress)
    ensures st.completed == CountStatus(tickets, Completed)
    ensures st.created + st.inProgress + st.completed == st.total
  {
    StatsAddUp(tickets);
    TicketStats(
      |tickets|,
      CountStatus(tickets, Created),
      CountStatus(tickets, InProgress),
      CountStatus(tickets, Completed))
  }

  /** Every ticket is counted under exactly one status, so the three counts add up to the total. */
  lemma {:induction false} StatsAddUp(tickets: seq<Ticket>)
    ensures CountStatus(tickets, Created) + CountStatus(tickets, InProgress) + CountStatus(tickets, Completed) == |tickets|
  {
    if tickets != [] {
      var init := tickets[..|tickets| - 1];
      StatsAddUp(init);
      assert tickets == init + [tickets[|tickets| - 1]];
      CountStatusAppend(init, [tickets[|tickets| - 1]], Created);
      CountStatusAppend(init, [tickets[|tickets| - 1]], InProgress);
      CountStatusAppend(init, [tickets[|tickets| - 1]], Completed);
    }
  }

  /** Counting distributes over concatenation: the counts of two lists add up. */
  lemma CountStatusAppend(a: seq<Ticket>, b: seq<Ticket>, s: TicketStatus)
    ensures CountStatus(a + b, s) == CountStatus(a, s) + CountStatus(b, s)
  {
    KeepAppend(a, b, (t: Ticket) => t.status == s);
  }
}
