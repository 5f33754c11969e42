/** The three enumerations of the backend and their wire strings. */
module Enums {
  import opened Wrappers

  /** The legacy ticket categories, still accepted by the create-ticket body. */
  datatype TicketTopic = Billing | Bug | Feature | Other

  datatype TicketPriority = Low | Medium | High

  /** The ticket lifecycle: created, then in_progress, then completed. */
  datatype TicketStatus = Created | InProgress | Completed

  const AllTopics: seq<TicketTopic> := [Billing, Bug, Feature, Other]
  const AllPriorities: seq<TicketPriority> := [Low, Medium, High]
  const AllStatuses: seq<TicketStatus> := [Created, InProgress, Completed]

  function TopicWire(t: TicketTopic): string {
    match t
    case Billing => "billing"
    case Bug => "bug"
    case Feature => "feature"
    case Other => "other"
  }

  function PriorityWire(p: TicketPriority): string {
    match p
    case Low => "low"
    case Medium => "medium"
    case High => "high"
  }

  function StatusWire(s: TicketStatus): string {
    match s
    case Created => "created"
    case InProgress => "in_progress"
    case Completed => "completed"
  }

  /** `@IsEnum(TicketTopic)`: the value is one of the enum's strings. */
  function ParseTopic(s: string): (r: Option<TicketTopic>)
    ensures r.Some? ==> TopicWire(r.value) == s
    ensures r.None? ==> forall t :: TopicWire(t) != s
  {
    if s == "billing" then Some(Billing)
    else if s == "bug" then Some(Bug)
    else if s == "feature" then Some(Feature)
    else if s == "other" then Some(Other)
    else None
  }

  function ParsePriority(s: string): (r: Option<TicketPriority>)
    ensures r.Some? ==> PriorityWire(r.value) == s
    ensures r.None? ==> forall p :: PriorityWire(p) != s
  {
    if s == "low" then Some(Low)
    else if s == "medium" then Some(Medium)
    else if s == "high" then Some(High)
    else None
  }

  function ParseStatus(s: string): (r: Option<TicketStatus>)
    ensures r.Some? ==> StatusWire(r.value) == s
    ensures r.None? ==> forall t :: StatusWire(t) != s
  {
    if s == "created" then Some(Created)
    else if s == "in_progress" then Some(InProgress)
    else if s == "completed" then Some(Completed)
    else None
  }

  /**
   * Each enumeration lists every value exactly once, and its wire strings are
   * pairwise distinct, so parsing a wire string gives back its value.
   */
  lemma EnumsAreExact()
    ensures |AllTopics| == 4 && |AllPriorities| == 3 && |AllStatuses| == 3
    ensures forall t :: t in AllTopics
    ensures forall p :: p in AllPriorities
    ensures forall s :: s in AllStatuses
    ensures forall i, j :: 0 <= i < j < |AllTopics| ==> TopicWire(AllTopics[i]) != TopicWire(AllTopics[j])
    ensures forall i, j :: 0 <= i < j < |AllPriorities| ==> PriorityWire(AllPriorities[i]) != PriorityWire(AllPriorities[j])
    ensures forall i, j :: 0 <= i < j < |AllStatuses| ==> StatusWire(AllStatuses[i]) != StatusWire(AllStatuses[j])
    ensures forall t :: ParseTopic(TopicWire(t)) == Some(t)
    ensures forall p :: ParsePriority(PriorityWire(p)) == Some(p)
    ensures forall s :: ParseStatus(StatusWire(s)) == Some(s)
  {
    forall t ensures t in AllTopics {
      match t
      case Billing => assert AllTopics[0] == t;
      case Bug => assert AllTopics[1] == t;
      case Feature => assert AllTopics[2] == t;
      case Other => assert AllTopics[3] == t;
    }
    forall p ensures p in AllPriorities {
      match p
      case Low => assert AllPriorities[0] == p;
      case Medium => assert AllPriorities[1] == p;
      case High => assert AllPriorities[2] == p;
    }
    forall s ensures s in AllStatuses {
      match s
      case Created => assert AllStatuses[0] == s;
      case InProgress => assert AllStatuses[1] == s;
      case Completed => assert AllStatuses[2] == s;
    }
  }

  /** Position in the lifecycle: statuses may only move to an equal or higher rank. */
  function Rank(s: TicketStatus): nat {
    match s
    case Created => 0
    case InProgress => 1
    case Completed => 2
  }
}
