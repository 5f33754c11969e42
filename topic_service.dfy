/**
 * The topic registry: lookups, creation with exact-name uniqueness across
 * active and inactive topics, rename/toggle, and physical deletion whose
 * `SET NULL` foreign key clears `topicId` on the tickets that referenced the
 * topic. Each operation is a function of the topic table (a map from id to
 * row); `Database.Store` applies them to its state.
 */
module TopicService {
  import opened Wrappers
  import opened Text
  import opened Entities
  import opened Errors

  /** `name <= other` under `ORDER BY name ASC`. */
  predicate NameLe(a: Topic, b: Topic) {
    StrLe(a.name, b.name)
  }

  predicate SortedByName(s: seq<Topic>) {
    forall i, j :: 0 <= i < j < |s| ==> NameLe(s[i], s[j])
  }

  /** Inserting a row into a name-ordered list, after the rows whose names are not greater. */
  function InsertByName(t: Topic, s: seq<Topic>): (r: seq<Topic>)
    ensures multiset(r) == multiset(s) + multiset{t}
  {
    if s == [] then [t]
    else if !NameLe(s[0], t) then [t] + s
    else
      assert s == [s[0]] + s[1..];
      [s[0]] + InsertByName(t, s[1..])
  }

  lemma {:induction false} InsertKeepsSorted(t: Topic, s: seq<Topic>)
    requires SortedByName(s)
    ensures SortedByName(InsertByName(t, s))
  {
    if s == [] {
    } else if !NameLe(s[0], t) {
      StrLeTotal(s[0].name, t.name);
      var r := [t] + s;
      forall i, j | 0 <= i < j < |r| ensures NameLe(r[i], r[j]) {
        if i == 0 && j > 1 {
          StrLeTransitive(t.name, s[0].name, s[j - 1].name);
        }
      }
    } else {
      var rest := InsertByName(t, s[1..]);
      InsertKeepsSorted(t, s[1..]);
      var r := [s[0]] + rest;
      forall i, j | 0 <= i < j < |r| ensures NameLe(r[i], r[j]) {
        if i == 0 {
          assert r[j] in multiset(s[1..]) + multiset{t} by {
            assert rest[j - 1] in multiset(rest);
          }
          if r[j] != t {
            var k :| 0 <= k < |s[1..]| && s[1..][k] == r[j];
            assert s[k + 1] == r[j];
          }
        }
      }
    }
  }

  /** The active rows among those stored under `ids`. */
  function ActiveAmong(topics: map<int, Topic>, ids: set<int>): set<Topic> {
    set id | id in ids && id in topics && topics[id].isActive :: topics[id]
  }

  /** Adding one more key adds its row once when it is active. */
  lemma ActiveAmongAdd(topics: map<int, Topic>, ids: set<int>, id: int)
    requires KeyedById(topics) && id in topics && id !in ids
    ensures multiset(ActiveAmong(topics, ids + {id}))
      == multiset(ActiveAmong(topics, ids)) + (if topics[id].isActive then multiset{topics[id]} else multiset{})
  {
    var before := ActiveAmong(topics, ids);
    var after := ActiveAmong(topics, ids + {id});
    if topics[id].isActive {
      assert topics[id] !in before;
      assert after == before + {topics[id]};
    } else {
      assert after == before;
    }
  }

  /** The rows `WHERE isActive = true`. */
  function ActiveTopics(topics: map<int, Topic>): (r: set<Topic>)
    ensures forall id :: id in topics && topics[id].isActive ==> topics[id] in r
    ensures forall t :: t in r ==> t.isActive && exists id :: id in topics && topics[id] == t
  {
    ActiveAmong(topics, topics.Keys)
  }

  /** `findById`: `null` (`None`) for an unknown id. */
  function FindById(topics: map<int, Topic>, id: int): (r: Option<Topic>)
    ensures r.Some? <==> id in topics
    ensures r.Some? ==> r.value == topics[id]
  {
    if id in topics then Some(topics[id]) else None
  }

  /** `findActiveById`: the row with that id, only when it is active. */
  function FindActiveById(topics: map<int, Topic>, id: int): (r: Option<Topic>)
    ensures r.Some? <==> id in topics && topics[id].isActive
    ensures r.Some? ==> r.value == topics[id]
  {
    if id in topics && topics[id].isActive then Some(topics[id]) else None
  }

  /** The active lookup is the plain lookup restricted to the active rows. */
  lemma ActiveLookupIsRestriction(topics: map<int, Topic>, id: int)
    ensures FindActiveById(topics, id).Some? <==>
      FindById(topics, id).Some? && FindById(topics, id).value in ActiveTopics(topics)
    ensures FindActiveById(topics, id).Some? ==> FindActiveById(topics, id) == FindById(topics, id)
  {
  }

  /** `findOne({ where: { name } })` finds a row: some topic, active or not, has exactly this name. */
  predicate NameTaken(topics: map<int, Topic>, name: string) {
    exists id :: id in topics && topics[id].name == name
  }

  /** No two topics share a name: what the service's checks keep true. */
  predicate DistinctNames(topics: map<int, Topic>) {
    forall a, b :: a in topics && b in topics && topics[a].name == topics[b].name ==> a == b
  }

  /** Every row is stored under its own id. */
  predicate KeyedById(topics: map<int, Topic>) {
    forall id :: id in topics ==> topics[id].id == id
  }

  function DuplicateName(name: string): HttpError {
    BadRequest("Topic with name " + Quoted(name) + " already exists")
  }

  function UnknownTopic(id: int): HttpError {
    NotFound("Topic with ID " + IntToString(id) + " not found")
  }

  /** `createTopic(name)`; the database assigns `id`. */
  function CreateTopic(topics: map<int, Topic>, name: string, id: int): (r: Result<Topic, HttpError>)
    ensures r.Ok? <==> !NameTaken(topics, name)
    ensures r.Ok? ==> r.value == Topic(id, name, DefaultTopicIsActive) && r.value.isActive
    ensures r.Err? ==> r.error == DuplicateName(name)
  {
    if NameTaken(topics, name) then Err(DuplicateName(name))
    else Ok(Topic(id, name, true))
  }

  /** The table after saving a successful result under its id. */
  function Saved(topics: map<int, Topic>, r: Result<Topic, HttpError>): map<int, Topic> {
    if r.Ok? then topics[r.value.id := r.value] else topics
  }

  /** A created topic is added under a fresh id and no existing topic changes; names stay distinct. */
  lemma CreateKeepsOthersAndDistinctNames(topics: map<int, Topic>, name: string, id: int)
    requires id !in topics
    requires DistinctNames(topics) && KeyedById(topics)
    ensures var after := Saved(topics, CreateTopic(topics, name, id));
      && (forall k :: k in topics ==> k in after && after[k] == topics[k])
      && DistinctNames(after) && KeyedById(after)
      && (CreateTopic(topics, name, id).Ok? ==> after.Keys == topics.Keys + {id})
  {
  }

  /** `updateTopic(id, name?, isActive?)`; `None` is an omitted field. */
  function UpdateTopic(topics: map<int, Topic>, id: int, name: Option<string>, isActive: Option<bool>): (r: Result<Topic, HttpError>)
    ensures id !in topics ==> r == Err(UnknownTopic(id))
    ensures id in topics ==>
      (r.Ok? <==> name.None? || name.value == topics[id].name || !NameTaken(topics, name.value))
    ensures r.Ok? ==> r.value.id == topics[id].id
    ensures r.Ok? ==> r.value.name == name.GetOr(topics[id].name)
    ensures r.Ok? ==> r.value.isActive == isActive.GetOr(topics[id].isActive)
    ensures id in topics && r.Err? ==> r.error == DuplicateName(name.value)
  {
    match FindById(topics, id)
    case None => Err(UnknownTopic(id))
    case Some(topic) =>
      if name.Some? && name.value != topic.name && NameTaken(topics, name.value) then
        Err(DuplicateName(name.value))
      else
        var renamed := if name.Some? && name.value != topic.name then topic.(name := name.value) else topic;
        var toggled := if isActive.Some? then renamed.(isActive := isActive.value) else renamed;
        Ok(toggled)
  }

  /** An empty update changes nothing. */
  lemma EmptyUpdateChangesNothing(topics: map<int, Topic>, id: int)
    requires id in topics && KeyedById(topics)
    ensures UpdateTopic(topics, id, None, None) == Ok(topics[id])
    ensures Saved(topics, UpdateTopic(topics, id, None, None)) == topics
  {
  }

  /** Renaming to a name another topic holds fails, and nothing is saved, not even `isActive`. */
  lemma RenameToTakenNameFails(topics: map<int, Topic>, id: int, other: int, isActive: Option<bool>)
    requires id in topics && other in topics && id != other
    requires DistinctNames(topics)
    ensures var r := UpdateTopic(topics, id, Some(topics[other].name), isActive);
      r == Err(DuplicateName(topics[other].name)) && Saved(topics, r) == topics
  {
  }

  /** Renaming to its own name always succeeds, and only `isActive` can change. */
  lemma RenameToOwnNameSucceeds(topics: map<int, Topic>, id: int, isActive: Option<bool>)
    requires id in topics
    ensures UpdateTopic(topics, id, Some(topics[id].name), isActive)
      == Ok(topics[id].(isActive := isActive.GetOr(topics[id].isActive)))
  {
  }

  /** Updates keep names pairwise distinct and touch no other row. */
  lemma UpdateKeepsOthersAndDistinctNames(topics: map<int, Topic>, id: int, name: Option<string>, isActive: Option<bool>)
    requires DistinctNames(topics) && KeyedById(topics)
    ensures var after := Saved(topics, UpdateTopic(topics, id, name, isActive));
      && after.Keys == topics.Keys
      && (forall k :: k in topics && k != id ==> after[k] == topics[k])
      && DistinctNames(after) && KeyedById(after)
  {
  }

  /** `deleteTopic(id)`: NotFound for an unknown id, else the row is removed. */
  function DeleteTopic(topics: map<int, Topic>, id: int): (r: Result<map<int, Topic>, HttpError>)
    ensures r.Ok? <==> id in topics
    ensures r.Ok? ==> r.value == topics - {id}
    ensures r.Err? ==> r.error == UnknownTopic(id)
  {
    match FindById(topics, id)
    case None => Err(UnknownTopic(id))
    case Some(_) => Ok(topics - {id})
  }

  /** `ON DELETE SET NULL`: every ticket that referenced the deleted topic loses its `topicId`. */
  function CascadeSetNull(tickets: map<int, Ticket>, deleted: int): (r: map<int, Ticket>)
    ensures r.Keys == tickets.Keys
  {
    map k | k in tickets :: OnTopicDeleted(tickets[k], deleted)
  }

  /** Every ticket's topic reference names an existing topic (the foreign key). */
  predicate ReferencesExist(tickets: map<int, Ticket>, topics: map<int, Topic>) {
    forall k :: k in tickets && tickets[k].topicId.Some? ==> tickets[k].topicId.value in topics
  }

  /**
   * Deleting a topic clears exactly the references to it, keeps every
   * snapshot name, and leaves the foreign key satisfied.
   */
  lemma DeleteCascades(tickets: map<int, Ticket>, topics: map<int, Topic>, id: int)
    requires id in topics && ReferencesExist(tickets, topics)
    ensures var after := CascadeSetNull(tickets, id);
      && ReferencesExist(after, DeleteTopic(topics, id).value)
      && forall k :: k in tickets ==>
        && after[k].topicNameSnapshot == tickets[k].topicNameSnapshot
        && (after[k].topicId.None? <==> tickets[k].topicId.None? || tickets[k].topicId == Some(id))
        && after[k].(topicId := tickets[k].topicId) == tickets[k]
  {
  }
}
