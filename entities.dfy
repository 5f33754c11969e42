/**
 * The four persisted records (tickets, topics, accounts, API keys), their
 * declared column widths and defaults, and the ticket-to-topic foreign key
 * with its `ON DELETE SET NULL` action.
 */
module Entities {
  import opened Wrappers
  import opened Enums

  /** Declared `varchar` widths. */
  const RequesterNameWidth: nat := 255
  const TopicNameSnapshotWidth: nat := 100
  const TopicNameWidth: nat := 100
  const SidWidth: nat := 255
  const AccountNameWidth: nat := 255
  const KeyHashWidth: nat := 255

  /** Column defaults. */
  const DefaultStatus: TicketStatus := Created
  const DefaultTopicIsActive: bool := true
  const DefaultApiKeyIsActive: bool := true

  /**
   * A row of `tickets`. Requester name, assignee, topic reference and topic
   * name snapshot are nullable; the other columns are always present.
   * The creation and update timestamps are not modelled.
   */
  datatype Ticket = Ticket(
    ticketId: int,
    requesterId: int,
    requesterName: Option<string>,
    assigneeId: Option<int>,
    topicId: Option<int>,
    topicNameSnapshot: Option<string>,
    priority: TicketPriority,
    status: TicketStatus,
    description: string)

  /** A row of `topics`. The name has no unique constraint in the schema. */
  datatype Topic = Topic(id: int, name: string, isActive: bool)

  /** A row of `accounts`; `sid` is unique. */
  datatype Account = Account(id: int, sid: string, name: string)

  /** A row of `api_keys`: only the hash of the key is stored. */
  datatype ApiKey = ApiKey(id: int, accountId: int, keyHash: string, isActive: bool)

  predicate TicketFits(t: Ticket) {
    && (t.requesterName.Some? ==> |t.requesterName.value| <= RequesterNameWidth)
    && (t.topicNameSnapshot.Some? ==> |t.topicNameSnapshot.value| <= TopicNameSnapshotWidth)
  }

  predicate TopicFits(t: Topic) {
    |t.name| <= TopicNameWidth
  }

  predicate AccountFits(a: Account) {
    |a.sid| <= SidWidth && |a.name| <= AccountNameWidth
  }

  predicate ApiKeyFits(k: ApiKey) {
    |k.keyHash| <= KeyHashWidth
  }

  /**
   * The referential action of `tickets.topic_id` when topic `deleted` is
   * removed: a ticket that referenced it loses the reference and keeps every
   * other column, its topic name snapshot included.
   */
  function OnTopicDeleted(t: Ticket, deleted: int): (r: Ticket)
    ensures r.topicId == (if t.topicId == Some(deleted) then None else t.topicId)
    ensures r.(topicId := t.topicId) == t
  {
    if t.topicId == Some(deleted) then t.(topicId := None) else t
  }
}
