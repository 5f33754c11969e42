/**
 * The backend's database as one store owning the `tickets` and `topics`
 * tables, so that deleting a topic can apply the `SET NULL` foreign key to the
 * tickets. Each method performs the service operation step by step on the
 * fetched row and is proved equal to the function in `TicketService` or
 * `TopicService` that specifies it.
 */
module Database {
  import opened Wrappers
  import opened Entities
  import opened Errors
  import opened Dtos
  import TicketService
  import TopicService

  /** A non-empty set has an element. */
  lemma HasElement(s: set<int>)
    requires s != {}
    ensures exists x :: x in s
  {
    if forall x :: x !in s {
      assert false;
    }
  }

  class Store {
    var tickets: map<int, Ticket>
    var topics: map<int, Topic>
    /** The next generated primary keys; generated keys are never reused. */
    var nextTicketId: int
    var nextTopicId: int

    ghost predicate Valid()
      reads this
    {
      && 1 <= nextTicketId && 1 <= nextTopicId
      && (forall id :: id in tickets ==> tickets[id].ticketId == id && 1 <= id < nextTicketId)
      && (forall id :: id in topics ==> 1 <= id < nextTopicId)
      && TopicService.KeyedById(topics)
      && TopicService.DistinctNames(topics)
      && TopicService.ReferencesExist(tickets, topics)
    }

    constructor()
      ensures Valid()
      ensures tickets == map[] && topics == map[]
    {
      tickets := map[];
      topics := map[];
      nextTicketId := 1;
      nextTopicId := 1;
    }

    /** `TicketService.createTicket`: the row gets the next id and status `created`. */
    method CreateTicket(dto: CreateTicketDto) returns (t: Ticket)
      requires Valid()
      modifies this
      ensures Valid()
      ensures t == TicketService.CreateTicket(dto, old(nextTicketId))
      ensures t.ticketId !in old(tickets) && tickets == old(tickets)[t.ticketId := t]
      ensures topics == old(topics)
    {
      t := TicketService.CreateTicket(dto, nextTicketId);
      tickets := tickets[t.ticketId := t];
      nextTicketId := nextTicketId + 1;
    }

    method FindAllTickets(filters: TicketService.FindAllFilters) returns (r: map<int, Ticket>)
      ensures r == TicketService.FindAll(tickets, filters)
    {
      r := TicketService.FindAll(tickets, filters);
    }

    method FindTicketById(id: int) returns (r: Result<Ticket, HttpError>)
      ensures r == TicketService.FindById(tickets, id)
    {
      r := TicketService.FindById(tickets, id);
    }

    /**
     * `TicketService.updateTicket`: the fetched row's assignee is set first, the
     * transition is checked against it, then the status is set and the row saved.
     * A rejected request saves nothing.
     */
    method UpdateTicket(id: int, dto: UpdateTicketDto) returns (r: Result<Ticket, HttpError>)
      requires Valid()
      modifies this
      ensures Valid()
      ensures r == TicketService.UpdateById(old(tickets), id, dto)
      ensures tickets == TicketService.Saved(old(tickets), id, r)
      ensures topics == old(topics) && nextTicketId == old(nextTicketId)
    {
      var found := TicketService.FindById(tickets, id);
      if found.Err? {
        return Err(found.error);
      }
      var ticket := found.value;
      if !dto.assigneeId.Absent? {
        ticket := ticket.(assigneeId := dto.assigneeId.OrNull());
      }
      if !dto.status.Absent? {
        var effective := TicketService.Coalesce(ticket.assigneeId, TicketService.Coalesce(dto.assigneeId.OrNull(), None));
        var check := TicketService.ValidateStatusTransition(ticket.status, dto.status.OrNull(), effective);
        if check.Fail? {
          return Err(check.error);
        }
        ticket := ticket.(status := dto.status.value);
      }
      tickets := tickets[id := ticket];
      r := Ok(ticket);
    }

    /** `TicketService.finalizeTicket`: only an `in_progress` row moves to `completed`. */
    method FinalizeTicket(id: int) returns (r: Result<Ticket, HttpError>)
      requires Valid()
      modifies this
      ensures Valid()
      ensures r == TicketService.FinalizeById(old(tickets), id)
      ensures tickets == TicketService.Saved(old(tickets), id, r)
      ensures topics == old(topics) && nextTicketId == old(nextTicketId)
    {
      var found := TicketService.FindById(tickets, id);
      if found.Err? {
        return Err(found.error);
      }
      var ticket := found.value;
      var outcome := TicketService.FinalizeTicket(ticket);
      if outcome.Err? {
        return outcome;
      }
      ticket := ticket.(status := Enums.Completed);
      tickets := tickets[id := ticket];
      r := Ok(ticket);
    }

    /** `TopicService.findActiveTopics`: the active topics, each once, ordered by name. */
    method FindActiveTopics() returns (r: seq<Topic>)
      requires Valid()
      ensures TopicService.SortedByName(r)
      ensures multiset(r) == multiset(TopicService.ActiveTopics(topics))
    {
      r := [];
      var rest := topics.Keys;
      ghost var seen: set<int> := {};
      while rest != {}
        invariant rest + seen == topics.Keys && rest !! seen
        invariant TopicService.SortedByName(r)
        invariant multiset(r) == multiset(TopicService.ActiveAmong(topics, seen))
        decreases rest
      {
        HasElement(rest);
        var id :| id in rest;
        TopicService.ActiveAmongAdd(topics, seen, id);
        if topics[id].isActive {
          TopicService.InsertKeepsSorted(topics[id], r);
          r := TopicService.InsertByName(topics[id], r);
        }
        rest := rest - {id};
        seen := seen + {id};
      }
      assert seen == topics.Keys;
    }

    method FindTopicById(id: int) returns (r: Option<Topic>)
      ensures r == TopicService.FindById(topics, id)
    {
      r := TopicService.FindById(topics, id);
    }

    method FindActiveTopicById(id: int) returns (r: Option<Topic>)
      ensures r == TopicService.FindActiveById(topics, id)
    {
      r := TopicService.FindActiveById(topics, id);
    }

    /** `TopicService.createTopic`: refused when any topic has the name, else inserted active. */
    method CreateTopic(name: string) returns (r: Result<Topic, HttpError>)
      requires Valid()
      modifies this
      ensures Valid()
      ensures r == TopicService.CreateTopic(old(topics), name, old(nextTopicId))
      ensures topics == TopicService.Saved(old(topics), r)
      ensures tickets == old(tickets) && nextTicketId == old(nextTicketId)
    {
      if TopicService.NameTaken(topics, name) {
        return Err(TopicService.DuplicateName(name));
      }
      var topic := Topic(nextTopicId, name, DefaultTopicIsActive);
      TopicService.CreateKeepsOthersAndDistinctNames(topics, name, nextTopicId);
      topics := topics[topic.id := topic];
      nextTopicId := nextTopicId + 1;
      r := Ok(topic);
    }

    /**
     * `TopicService.updateTopic`: a new name different from the current one is
     * checked against every topic and assigned; a supplied `isActive` is assigned;
     * then the row is saved.
     */
    method UpdateTopic(id: int, name: Option<string>, isActive: Option<bool>) returns (r: Result<Topic, HttpError>)
      requires Valid()
      modifies this
      ensures Valid()
      ensures r == TopicService.UpdateTopic(old(topics), id, name, isActive)
      ensures topics == TopicService.Saved(old(topics), r)
      ensures tickets == old(tickets) && nextTopicId == old(nextTopicId)
    {
      var found := TopicService.FindById(topics, id);
      if found.None? {
        return Err(TopicService.UnknownTopic(id));
      }
      var topic := found.value;
      if name.Some? && name.value != topic.name {
        if TopicService.NameTaken(topics, name.value) {
          return Err(TopicService.DuplicateName(name.value));
        }
        topic := topic.(name := name.value);
      }
      if isActive.Some? {
        topic := topic.(isActive := isActive.value);
      }
      TopicService.UpdateKeepsOthersAndDistinctNames(topics, id, name, isActive);
      topics := topics[topic.id := topic];
      r := Ok(topic);
    }

    /** `TopicService.deleteTopic`: the row is removed and the tickets' references to it are cleared. */
    method DeleteTopic(id: int) returns (r: Outcome<HttpError>)
      requires Valid()
      modifies this
      ensures Valid()
      ensures r.Pass? <==> id in old(topics)
      ensures r.Fail? ==> r.error == TopicService.UnknownTopic(id) && topics == old(topics) && tickets == old(tickets)
      ensures r.Pass? ==> topics == old(topics) - {id} && tickets == TopicService.CascadeSetNull(old(tickets), id)
    {
      var found := TopicService.FindById(topics, id);
      if found.None? {
        return Fail(TopicService.UnknownTopic(id));
      }
      TopicService.DeleteCascades(tickets, topics, id);
      topics := topics - {id};
      tickets := TopicService.CascadeSetNull(tickets, id);
      r := Pass;
    }
  }
}
