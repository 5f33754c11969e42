/**
 * The topic migration script: seeding the four default topics that replace
 * the legacy enum, then backfilling `topicNameSnapshot` on tickets that have
 * none. Database access is replaced by the rows it returns: the topics read
 * before seeding, and the tickets and topics the backfill query joins.
 */
module MigrateTopics {
  import opened Wrappers
  import opened Text
  import opened Enums
  import opened Entities

  datatype DefaultTopic = DefaultTopic(name: string, enumValue: TicketTopic)

  /** The default topics, one per legacy enum value, in the order they are seeded. */
  const DefaultTopics: seq<DefaultTopic> := [
    DefaultTopic("Billing", Billing),
    DefaultTopic("Bug Report", Bug),
    DefaultTopic("Feature Request", Feature),
    DefaultTopic("General Inquiry", Other)
  ]

  const GeneralInquiry: string := "General Inquiry"

  /** `topics.find(t => t.name === name)`. */
  function FindByName(topics: seq<Topic>, name: string): (r: Option<Topic>)
    ensures r.Some? ==> r.value in topics && r.value.name == name
    ensures r.None? <==> forall t :: t in topics ==> t.name != name
  {
    if topics == [] then None
    else if topics[0].name == name then Some(topics[0])
    else FindByName(topics[1..], name)
  }

  /** What seeding produced: the topics it created and the enum-to-topic map. */
  datatype Seeding = Seeding(created: seq<Topic>, topicMap: map<TicketTopic, Topic>)

  /**
   * Seeding the given defaults in order: a default whose name an existing topic
   * has maps to that topic; otherwise a new active topic is created with the
   * next id. Existing topics are those read once, before the loop.
   */
  function Seed(existing: seq<Topic>, nextId: int, defaults: seq<DefaultTopic>): (r: Seeding)
    ensures |r.created| <= |defaults|
    ensures forall i :: 0 <= i < |r.created| ==> r.created[i].id == nextId + i
    decreases |defaults|
  {
    if defaults == [] then Seeding([], map[])
    else
      var s := Seed(existing, nextId, defaults[..|defaults| - 1]);
      var d := defaults[|defaults| - 1];
      match FindByName(existing, d.name)
      case Some(t) => Seeding(s.created, s.topicMap[d.enumValue := t])
      case None =>
        var t := Topic(nextId + |s.created|, d.name, DefaultTopicIsActive);
        Seeding(s.created + [t], s.topicMap[d.enumValue := t])
  }

  /** The seeding loop. */
  method SeedDefaultTopics(existing: seq<Topic>, nextId: int) returns (created: seq<Topic>, topicMap: map<TicketTopic, Topic>)
    ensures Seeding(created, topicMap) == Seed(existing, nextId, DefaultTopics)
  {
    created := [];
    topicMap := map[];
    var i := 0;
    while i < |DefaultTopics|
      invariant 0 <= i <= |DefaultTopics|
      invariant Seeding(created, topicMap) == Seed(existing, nextId, DefaultTopics[..i])
    {
      var d := DefaultTopics[i];
      var topic := FindByName(existing, d.name);
      var t: Topic;
      if topic.None? {
        t := Topic(nextId + |created|, d.name, true);
        created := created + [t];
      } else {
        t := topic.value;
      }
      topicMap := topicMap[d.enumValue := t];
      assert DefaultTopics[..i + 1][..i] == DefaultTopics[..i];
      i := i + 1;
    }
    assert DefaultTopics[..i] == DefaultTopics;
  }

  /** A topic is created only for a default whose name no existing topic has, and it is active. */
  lemma {:induction false} SeedCreatesOnlyMissing(existing: seq<Topic>, nextId: int, defaults: seq<DefaultTopic>)
    ensures forall t :: t in Seed(existing, nextId, defaults).created ==> t.isActive && FindByName(existing, t.name).None?
    decreases |defaults|
  {
    if defaults != [] {
      var init := defaults[..|defaults| - 1];
      SeedCreatesOnlyMissing(existing, nextId, init);
    }
  }

  /** After seeding, every default name is held by an existing or a created topic. */
  lemma {:induction false} SeedCoversDefaults(existing: seq<Topic>, nextId: int, defaults: seq<DefaultTopic>)
    ensures forall d :: d in defaults ==> FindByName(existing + Seed(existing, nextId, defaults).created, d.name).Some?
    decreases |defaults|
  {
    if defaults != [] {
      var init := defaults[..|defaults| - 1];
      var last := defaults[|defaults| - 1];
      SeedCoversDefaults(existing, nextId, init);
      var before := existing + Seed(existing, nextId, init).created;
      var after := existing + Seed(existing, nextId, defaults).created;
      assert forall t :: t in before ==> t in after;
      forall d | d in defaults ensures FindByName(after, d.name).Some? {
        if d in init {
          assert FindByName(before, d.name).value in after;
        } else {
          assert d == last;
          if FindByName(existing, d.name).None? {
            assert after[|after| - 1].name == d.name;
          } else {
            assert FindByName(existing, d.name).value in after;
          }
        }
      }
    }
  }

  /** Re-running the seeding over the topics the first run left creates nothing. */
  lemma SeedIsIdempotent(existing: seq<Topic>, firstId: int, secondId: int)
    ensures var first := Seed(existing, firstId, DefaultTopics);
      Seed(existing + first.created, secondId, DefaultTopics).created == []
  {
    var first := Seed(existing, firstId, DefaultTopics);
    SeedCoversDefaults(existing, firstId, DefaultTopics);
    SeedNothingWhenPresent(existing + first.created, secondId, DefaultTopics);
  }

  lemma {:induction false} SeedNothingWhenPresent(existing: seq<Topic>, nextId: int, defaults: seq<DefaultTopic>)
    requires forall d :: d in defaults ==> FindByName(existing, d.name).Some?
    ensures Seed(existing, nextId, defaults).created == []
    decreases |defaults|
  {
    if defaults != [] {
      var init := defaults[..|defaults| - 1];
      assert forall d :: d in init ==> d in defaults;
      SeedNothingWhenPresent(existing, nextId, init);
      assert defaults[|defaults| - 1] in defaults;
    }
  }

  /** The enum values of the defaults are distinct. */
  predicate DistinctEnumValues(defaults: seq<DefaultTopic>) {
    forall i, j :: 0 <= i < j < |defaults| ==> defaults[i].enumValue != defaults[j].enumValue
  }

  /** The map has one entry per default, holding a topic with that default's name. */
  lemma {:induction false} SeedMapsEveryDefault(existing: seq<Topic>, nextId: int, defaults: seq<DefaultTopic>)
    requires DistinctEnumValues(defaults)
    ensures var m := Seed(existing, nextId, defaults).topicMap;
      forall i :: 0 <= i < |defaults| ==> defaults[i].enumValue in m && m[defaults[i].enumValue].name == defaults[i].name
    ensures forall e :: e in Seed(existing, nextId, defaults).topicMap ==> exists d :: d in defaults && d.enumValue == e
    decreases |defaults|
  {
    if defaults != [] {
      var init := defaults[..|defaults| - 1];
      SeedMapsEveryDefault(existing, nextId, init);
      var m := Seed(existing, nextId, defaults).topicMap;
      forall i | 0 <= i < |defaults| - 1
        ensures defaults[i].enumValue in m && m[defaults[i].enumValue].name == defaults[i].name
      {
        assert init[i] == defaults[i];
      }
      forall e | e in m ensures exists d :: d in defaults && d.enumValue == e {
        if e != defaults[|defaults| - 1].enumValue {
          var d :| d in init && d.enumValue == e;
          assert d in defaults;
        } else {
          assert defaults[|defaults| - 1] in defaults;
        }
      }
    }
  }

  /** After seeding, each legacy value maps to the topic carrying its default name. */
  lemma SeedMapsLegacyTopics(existing: seq<Topic>, nextId: int)
    ensures var m := Seed(existing, nextId, DefaultTopics).topicMap;
      && Billing in m && m[Billing].name == "Billing"
      && Bug in m && m[Bug].name == "Bug Report"
      && Feature in m && m[Feature].name == "Feature Request"
      && Other in m && m[Other].name == GeneralInquiry
  {
    SeedMapsEveryDefault(existing, nextId, DefaultTopics);
    assert DefaultTopics[0].enumValue == Billing && DefaultTopics[1].enumValue == Bug;
    assert DefaultTopics[2].enumValue == Feature && DefaultTopics[3].enumValue == Other;
  }

  /** A row of the backfill query: a ticket without snapshot, left-joined to its topic's name. */
  datatype SnapshotRow = SnapshotRow(ticketId: int, topicId: Option<int>, topicName: Option<string>)

  /** The tickets `WHERE topic_name_snapshot IS NULL`. */
  function NeedingSnapshot(tickets: map<int, Ticket>): set<int> {
    set id | id in tickets && tickets[id].topicNameSnapshot.None?
  }

  /** `LEFT JOIN topics top ON t.topic_id = top.id`. */
  function JoinedRow(tickets: map<int, Ticket>, topics: map<int, Topic>, id: int): SnapshotRow
    requires id in tickets
  {
    var t := tickets[id];
    SnapshotRow(id, t.topicId,
      if t.topicId.Some? && t.topicId.value in topics then Some(topics[t.topicId.value].name) else None)
  }

  /** `Object.entries(topicMap).find(([_, t]) => t.id === id)`: entries in enum order. */
  function DefaultWithId(topicMap: map<TicketTopic, Topic>, order: seq<TicketTopic>, id: int): (r: Option<Topic>)
    ensures r.Some? ==> r.value.id == id && exists e :: e in order && e in topicMap && topicMap[e] == r.value
    ensures r.None? ==> forall e :: e in order && e in topicMap ==> topicMap[e].id != id
  {
    if order == [] then None
    else if order[0] in topicMap && topicMap[order[0]].id == id then Some(topicMap[order[0]])
    else DefaultWithId(topicMap, order[1..], id)
  }

  /** The snapshot name chosen for a row; the empty string means none. */
  function SnapshotName(row: SnapshotRow, topicMap: map<TicketTopic, Topic>): (r: string)
    ensures TruthyString(row.topicName) ==> r == row.topicName.value
    ensures !TruthyString(row.topicName) && TruthyInt(row.topicId) ==>
      && ((exists e :: e in topicMap && topicMap[e].id == row.topicId.value) ==>
            exists e :: e in topicMap && topicMap[e].id == row.topicId.value && r == topicMap[e].name)
      && ((forall e :: e in topicMap ==> topicMap[e].id != row.topicId.value) ==>
            r == "Topic " + IntToString(row.topicId.value))
    ensures !TruthyString(row.topicName) && !TruthyInt(row.topicId) && Other !in topicMap ==> r == GeneralInquiry
    ensures !TruthyString(row.topicName) && !TruthyInt(row.topicId) && Other in topicMap ==>
      r == (if topicMap[Other].name != "" then topicMap[Other].name else GeneralInquiry)
  {
    EnumsAreExact();
    if row.topicName.Some? && row.topicName.value != "" then row.topicName.value
    else if row.topicId.Some? && row.topicId.value != 0 then
      match DefaultWithId(topicMap, AllTopics, row.topicId.value)
      case Some(t) => t.name
      case None => "Topic " + IntToString(row.topicId.value)
    else if Other in topicMap && topicMap[Other].name != "" then topicMap[Other].name
    else GeneralInquiry
  }

  predicate NamesNonEmpty(topicMap: map<TicketTopic, Topic>) {
    forall e :: e in topicMap ==> topicMap[e].name != ""
  }

  /** Every rule yields a name when the mapped topics have names, so every selected row is updated. */
  lemma SnapshotNameNonEmpty(row: SnapshotRow, topicMap: map<TicketTopic, Topic>)
    requires NamesNonEmpty(topicMap)
    ensures SnapshotName(row, topicMap) != ""
  {
  }

  /** `if (snapshotName)` then set the snapshot, for a ticket that had none. */
  function Fill(t: Ticket, name: string): Ticket {
    if t.topicNameSnapshot.None? && name != "" then t.(topicNameSnapshot := Some(name)) else t
  }

  /** One ticket after the backfill. */
  function BackfilledRow(tickets: map<int, Ticket>, topics: map<int, Topic>, topicMap: map<TicketTopic, Topic>, id: int): Ticket
    requires id in tickets
  {
    Fill(tickets[id], SnapshotName(JoinedRow(tickets, topics, id), topicMap))
  }

  /** The ticket table after the backfill. */
  function Backfilled(tickets: map<int, Ticket>, topics: map<int, Topic>, topicMap: map<TicketTopic, Topic>): (r: map<int, Ticket>)
    ensures r.Keys == tickets.Keys
  {
    map id | id in tickets :: BackfilledRow(tickets, topics, topicMap, id)
  }

  /** Existing snapshots are never overwritten and no other column changes. */
  lemma BackfillOnlyFillsMissing(tickets: map<int, Ticket>, topics: map<int, Topic>, topicMap: map<TicketTopic, Topic>)
    ensures var after := Backfilled(tickets, topics, topicMap);
      forall id :: id in tickets ==>
        && after[id].(topicNameSnapshot := tickets[id].topicNameSnapshot) == tickets[id]
        && (tickets[id].topicNameSnapshot.Some? ==> after[id] == tickets[id])
        && (NamesNonEmpty(topicMap) ==> after[id].topicNameSnapshot.Some?)
  {
  }

  /** Every topic the seeding maps to carries the name of its default. */
  lemma {:induction false} SeedKeepsNames(existing: seq<Topic>, nextId: int, defaults: seq<DefaultTopic>)
    requires forall i :: 0 <= i < |defaults| ==> defaults[i].name != ""
    ensures NamesNonEmpty(Seed(existing, nextId, defaults).topicMap)
    decreases |defaults|
  {
    if defaults != [] {
      SeedKeepsNames(existing, nextId, defaults[..|defaults| - 1]);
    }
  }

  /**
   * After seeding, a ticket with neither a topic nor a topic id is given the
   * name "General Inquiry", and every rule yields a name.
   */
  lemma BackfillAfterSeeding(existing: seq<Topic>, nextId: int, row: SnapshotRow)
    ensures var m := Seed(existing, nextId, DefaultTopics).topicMap;
      && SnapshotName(row, m) != ""
      && (((row.topicName.None? || row.topicName.value == "") && (row.topicId.None? || row.topicId.value == 0))
            ==> SnapshotName(row, m) == GeneralInquiry)
  {
    var m := Seed(existing, nextId, DefaultTopics).topicMap;
    SeedMapsLegacyTopics(existing, nextId);
    SeedKeepsNames(existing, nextId, DefaultTopics);
    SnapshotNameNonEmpty(row, m);
  }

  /**
   * The backfill step: nothing happens without the snapshot column; otherwise
   * the rows the query selected, in the order it returned them, get their
   * snapshot name, and the number of updates is counted.
   */
  method Backfill(hasSnapshotColumn: bool, tickets: map<int, Ticket>, topics: map<int, Topic>,
                  topicMap: map<TicketTopic, Topic>, selected: seq<int>)
    returns (after: map<int, Ticket>, count: nat)
    requires forall i :: 0 <= i < |selected| ==> selected[i] in NeedingSnapshot(tickets)
    requires forall id :: id in NeedingSnapshot(tickets) ==> id in selected
    requires forall i, j :: 0 <= i < j < |selected| ==> selected[i] != selected[j]
    ensures !hasSnapshotColumn ==> after == tickets && count == 0
    ensures hasSnapshotColumn ==> after == Backfilled(tickets, topics, topicMap)
    ensures hasSnapshotColumn && NamesNonEmpty(topicMap) ==> count == |selected|
    ensures count <= |selected|
  {
    if !hasSnapshotColumn {
      return tickets, 0;
    }
    after, count := BackfillSelected(tickets, topics, topicMap, selected);
    forall id | id in tickets ensures after[id] == BackfilledRow(tickets, topics, topicMap, id) {
      if id !in selected {
        assert id !in NeedingSnapshot(tickets);
      }
    }
  }

  /**
   * The loop's progress after the rows in `done`: those rows hold their
   * backfilled value and every other row is as it was.
   */
  ghost predicate BackfillProgress(tickets: map<int, Ticket>, topics: map<int, Topic>,
                                   topicMap: map<TicketTopic, Topic>, after: map<int, Ticket>, done: seq<int>)
  {
    && after.Keys == tickets.Keys
    && (forall id :: id in tickets && id !in done ==> after[id] == tickets[id])
    && (forall id :: id in done ==> id in tickets && after[id] == BackfilledRow(tickets, topics, topicMap, id))
  }

  /** One pass of the loop body extends the progress by one row. */
  lemma BackfillStep(tickets: map<int, Ticket>, topics: map<int, Topic>, topicMap: map<TicketTopic, Topic>,
                     after: map<int, Ticket>, done: seq<int>, id: int)
    requires BackfillProgress(tickets, topics, topicMap, after, done)
    requires id in NeedingSnapshot(tickets) && id !in done
    ensures var name := SnapshotName(JoinedRow(tickets, topics, id), topicMap);
      var next := if name != "" then after[id := after[id].(topicNameSnapshot := Some(name))] else after;
      BackfillProgress(tickets, topics, topicMap, next, done + [id])
  {
    var name := SnapshotName(JoinedRow(tickets, topics, id), topicMap);
    var next := if name != "" then after[id := after[id].(topicNameSnapshot := Some(name))] else after;
    assert after[id] == tickets[id];
    assert next[id] == BackfilledRow(tickets, topics, topicMap, id);
    forall x | x in done + [id] ensures x in tickets && next[x] == BackfilledRow(tickets, topics, topicMap, x) {
      if x != id {
        assert x in done;
      }
    }
  }

  /** The loop over the selected rows. */
  method BackfillSelected(tickets: map<int, Ticket>, topics: map<int, Topic>,
                          topicMap: map<TicketTopic, Topic>, selected: seq<int>)
    returns (after: map<int, Ticket>, count: nat)
    requires forall i :: 0 <= i < |selected| ==> selected[i] in NeedingSnapshot(tickets)
    requires forall i, j :: 0 <= i < j < |selected| ==> selected[i] != selected[j]
    ensures after.Keys == tickets.Keys
    ensures forall id :: id in tickets && id !in selected ==> after[id] == tickets[id]
    ensures forall id :: id in selected ==> id in tickets && after[id] == BackfilledRow(tickets, topics, topicMap, id)
    ensures count <= |selected|
    ensures NamesNonEmpty(topicMap) ==> count == |selected|
  {
    after := tickets;
    count := 0;
    assert selected[..0] == [];
    for i := 0 to |selected|
      invariant BackfillProgress(tickets, topics, topicMap, after, selected[..i])
      invariant count <= i
      invariant NamesNonEmpty(topicMap) ==> count == i
    {
      var id := selected[i];
      assert id !in selected[..i];
      BackfillStep(tickets, topics, topicMap, after, selected[..i], id);
      var name := SnapshotName(JoinedRow(tickets, topics, id), topicMap);
      if name != "" {
        after := after[id := after[id].(topicNameSnapshot := Some(name))];
        count := count + 1;
      } else if NamesNonEmpty(topicMap) {
        SnapshotNameNonEmpty(JoinedRow(tickets, topics, id), topicMap);
      }
      assert selected[..i + 1] == selected[..i] + [id];
    }
    assert selected[..|selected|] == selected;
  }
}
