/**
 * The admin settings page: who may open it, the topic list it keeps, and how
 * the create, rename, toggle and delete handlers change that list and the
 * page's dialogs once the server has answered.
 */
module Settings {
  import opened Wrappers
  import opened Text
  import opened ClientTypes
  import opened Lists

  /** `[...topics, created]`. */
  function AppendTopic(topics: seq<Topic>, created: Topic): (r: seq<Topic>)
    ensures |r| == |topics| + 1 && r[..|topics|] == topics && r[|topics|] == created
  {
    topics + [created]
  }

  /** `topics.map(t => t.id === updated.id ? updated : t)`. */
  function ReplaceById(topics: seq<Topic>, updated: Topic): (r: seq<Topic>)
    ensures |r| == |topics|
    ensures forall i :: 0 <= i < |topics| ==> r[i].id == topics[i].id
    ensures forall i :: 0 <= i < |topics| && topics[i].id != updated.id ==> r[i] == topics[i]
    ensures forall i :: 0 <= i < |topics| && topics[i].id == updated.id ==> r[i] == updated
  {
    seq(|topics|, i requires 0 <= i < |topics| => if topics[i].id == updated.id then updated else topics[i])
  }

  /** `topics.filter(t => t.id !== id)`. */
  function RemoveById(topics: seq<Topic>, id: int): (r: seq<Topic>)
    ensures forall t :: t in r <==> t in topics && t.id != id
    ensures SubsequenceOf(r, topics)
  {
    KeepIsSubsequence(topics, (t: Topic) => t.id != id);
    Keep(topics, (t: Topic) => t.id != id)
  }

  /** Replacing the same topic twice is replacing it once. */
  lemma ReplaceIsIdempotent(topics: seq<Topic>, updated: Topic)
    ensures ReplaceById(ReplaceById(topics, updated), updated) == ReplaceById(topics, updated)
  {
  }

  /** After a replace, the topic with that id is the answer, wherever it was; a missing id changes nothing. */
  lemma ReplaceShowsAnswer(topics: seq<Topic>, updated: Topic)
    ensures (exists i :: 0 <= i < |topics| && topics[i].id == updated.id) ==> updated in ReplaceById(topics, updated)
    ensures (forall t :: t in topics ==> t.id != updated.id) ==> ReplaceById(topics, updated) == topics
  {
    if exists i :: 0 <= i < |topics| && topics[i].id == updated.id {
      var i :| 0 <= i < |topics| && topics[i].id == updated.id;
      assert ReplaceById(topics, updated)[i] == updated;
    }
  }

  /** Deleting a topic that was just created, under a fresh id, gives back the list from before. */
  lemma {:induction false} RemoveUndoesAppend(topics: seq<Topic>, created: Topic)
    requires forall t :: t in topics ==> t.id != created.id
    ensures RemoveById(AppendTopic(topics, created), created.id) == topics
  {
    var keep := (t: Topic) => t.id != created.id;
    KeepAppend(topics, [created], keep);
    assert Keep([created], keep) == Keep([], keep);
    KeepEverything(topics, keep);
  }

  /** Where the page sends a visitor: home without a user, the dashboard for a non-admin. */
  datatype Gate = ToHome | ToDashboard | LoadTopicList

  function SettingsGate(user: Option<User>): (g: Gate)
    ensures g == LoadTopicList <==> user.Some? && user.value.role == Admin
    ensures g == ToHome <==> user.None?
  {
    if user.None? then ToHome
    else if user.value.role != Admin then ToDashboard
    else LoadTopicList
  }

  /** The request a topic update sends: the topic id and the changed fields. */
  datatype TopicChange = TopicChange(id: int, name: Option<string>, active: Option<bool>)

  /** The page's state. */
  class SettingsPage {
    var topics: seq<Topic>
    var loading: bool
    var createDialogOpen: bool
    var editDialogOpen: bool
    var deleteDialogOpen: bool
    var selectedTopic: Option<Topic>
    var newTopicName: string
    var editTopicName: string
    var submitting: bool
    var deleting: bool

    constructor()
      ensures topics == [] && loading && selectedTopic.None?
      ensures !createDialogOpen && !editDialogOpen && !deleteDialogOpen
      ensures newTopicName == "" && editTopicName == "" && !submitting && !deleting
    {
      topics := [];
      loading := true;
      createDialogOpen := false;
      editDialogOpen := false;
      deleteDialogOpen := false;
      selectedTopic := None;
      newTopicName := "";
      editTopicName := "";
      submitting := false;
      deleting := false;
    }

    /**
     * The page's first effect: only an admin loads the list; `response` is what
     * the fetch gave. A failed fetch leaves the list as it was.
     */
    method Open(user: Option<User>, response: Result<seq<Topic>, string>) returns (g: Gate)
      modifies this
      ensures g == SettingsGate(user)
      ensures g != LoadTopicList ==> topics == old(topics) && loading == old(loading)
      ensures g == LoadTopicList ==> !loading && topics == (if response.Ok? then response.value else old(topics))
      ensures selectedTopic == old(selectedTopic) && newTopicName == old(newTopicName)
      ensures editTopicName == old(editTopicName) && submitting == old(submitting) && deleting == old(deleting)
      ensures createDialogOpen == old(createDialogOpen) && editDialogOpen == old(editDialogOpen)
      ensures deleteDialogOpen == old(deleteDialogOpen)
    {
      g := SettingsGate(user);
      if g != LoadTopicList {
        return;
      }
      loading := true;
      if response.Ok? {
        topics := response.value;
      }
      loading := false;
    }

    /** Typing in the create dialog. */
    method EditNewName(name: string)
      modifies this
      ensures newTopicName == name
      ensures topics == old(topics) && selectedTopic == old(selectedTopic) && editTopicName == old(editTopicName)
      ensures createDialogOpen == old(createDialogOpen) && editDialogOpen == old(editDialogOpen)
      ensures deleteDialogOpen == old(deleteDialogOpen) && loading == old(loading)
      ensures submitting == old(submitting) && deleting == old(deleting)
    {
      newTopicName := name;
    }

    /**
     * Submitting the create dialog. Nothing is sent without a user or when the
     * name is blank; otherwise the name is sent as typed, untrimmed, and the
     * created topic that `response` carries is appended.
     */
    method HandleCreateTopic(user: Option<User>, response: Result<Topic, string>) returns (sent: Option<string>)
      modifies this
      ensures sent.Some? <==> user.Some? && Trim(old(newTopicName)) != ""
      ensures sent.Some? ==> sent.value == old(newTopicName)
      ensures sent.None? || response.Err? ==>
        topics == old(topics) && newTopicName == old(newTopicName) && createDialogOpen == old(createDialogOpen)
      ensures sent.Some? && response.Ok? ==>
        topics == AppendTopic(old(topics), response.value) && newTopicName == "" && !createDialogOpen
      ensures sent.Some? ==> !submitting
      ensures sent.None? ==> submitting == old(submitting)
      ensures selectedTopic == old(selectedTopic) && editTopicName == old(editTopicName)
      ensures editDialogOpen == old(editDialogOpen) && deleteDialogOpen == old(deleteDialogOpen)
      ensures loading == old(loading) && deleting == old(deleting)
    {
      if user.None? || Trim(newTopicName) == "" {
        return None;
      }
      sent := Some(newTopicName);
      submitting := true;
      if response.Ok? {
        topics := AppendTopic(topics, response.value);
        newTopicName := "";
        createDialogOpen := false;
      }
      submitting := false;
    }

    /** Opening the rename dialog fills it with the topic's current name. */
    method OpenEditDialog(topic: Topic)
      modifies this
      ensures selectedTopic == Some(topic) && editTopicName == topic.name && editDialogOpen
      ensures topics == old(topics) && newTopicName == old(newTopicName)
      ensures createDialogOpen == old(createDialogOpen) && deleteDialogOpen == old(deleteDialogOpen)
      ensures loading == old(loading) && submitting == old(submitting) && deleting == old(deleting)
    {
      selectedTopic := Some(topic);
      editTopicName := topic.name;
      editDialogOpen := true;
    }

    /** Typing in the rename dialog. */
    method EditName(name: string)
      modifies this
      ensures editTopicName == name
      ensures topics == old(topics) && selectedTopic == old(selectedTopic) && newTopicName == old(newTopicName)
      ensures createDialogOpen == old(createDialogOpen) && editDialogOpen == old(editDialogOpen)
      ensures deleteDialogOpen == old(deleteDialogOpen) && loading == old(loading)
      ensures submitting == old(submitting) && deleting == old(deleting)
    {
      editTopicName := name;
    }

    /**
     * Submitting the rename dialog: nothing is sent without a selected topic or
     * with a blank name; otherwise the new name is sent as typed and the answer
     * replaces the topic with its id.
     */
    method HandleEditTopic(response: Result<Topic, string>) returns (sent: Option<TopicChange>)
      modifies this
      ensures sent.Some? <==> old(selectedTopic).Some? && Trim(old(editTopicName)) != ""
      ensures sent.Some? ==> sent.value == TopicChange(old(selectedTopic).value.id, Some(old(editTopicName)), None)
      ensures sent.None? || response.Err? ==>
        topics == old(topics) && selectedTopic == old(selectedTopic) && editDialogOpen == old(editDialogOpen)
      ensures sent.Some? && response.Ok? ==>
        topics == ReplaceById(old(topics), response.value) && selectedTopic.None? && !editDialogOpen
      ensures sent.Some? ==> !submitting
      ensures sent.None? ==> submitting == old(submitting)
      ensures newTopicName == old(newTopicName) && editTopicName == old(editTopicName)
      ensures createDialogOpen == old(createDialogOpen) && deleteDialogOpen == old(deleteDialogOpen)
      ensures loading == old(loading) && deleting == old(deleting)
    {
      if selectedTopic.None? || Trim(editTopicName) == "" {
        return None;
      }
      sent := Some(TopicChange(selectedTopic.value.id, Some(editTopicName), None));
      submitting := true;
      if response.Ok? {
        topics := ReplaceById(topics, response.value);
        editDialogOpen := false;
        selectedTopic := None;
      }
      submitting := false;
    }

    /** The switch on a topic's row: it sends the opposite of the shown flag and shows the answer. */
    method HandleToggleActive(topic: Topic, response: Result<Topic, string>) returns (sent: TopicChange)
      modifies this
      ensures sent == TopicChange(topic.id, None, Some(!topic.active))
      ensures topics == (if response.Ok? then ReplaceById(old(topics), response.value) else old(topics))
      ensures selectedTopic == old(selectedTopic) && newTopicName == old(newTopicName)
      ensures editTopicName == old(editTopicName) && createDialogOpen == old(createDialogOpen)
      ensures editDialogOpen == old(editDialogOpen) && deleteDialogOpen == old(deleteDialogOpen)
      ensures loading == old(loading) && submitting == old(submitting) && deleting == old(deleting)
    {
      sent := TopicChange(topic.id, None, Some(!topic.active));
      if response.Ok? {
        topics := ReplaceById(topics, response.value);
      }
    }

    /** Opening the delete dialog for a topic. */
    method OpenDeleteDialog(topic: Topic)
      modifies this
      ensures selectedTopic == Some(topic) && deleteDialogOpen
      ensures topics == old(topics) && newTopicName == old(newTopicName) && editTopicName == old(editTopicName)
      ensures createDialogOpen == old(createDialogOpen) && editDialogOpen == old(editDialogOpen)
      ensures loading == old(loading) && submitting == old(submitting) && deleting == old(deleting)
    {
      selectedTopic := Some(topic);
      deleteDialogOpen := true;
    }

    /**
     * The confirmed delete: nothing is sent without a selected topic; when the
     * server removes it, the topic leaves the list and the dialog closes.
     */
    method HandleDeleteTopic(response: Outcome<string>) returns (sent: Option<int>)
      modifies this
      ensures sent.Some? <==> old(selectedTopic).Some?
      ensures sent.Some? ==> sent.value == old(selectedTopic).value.id
      ensures sent.None? || response.Fail? ==>
        topics == old(topics) && selectedTopic == old(selectedTopic) && deleteDialogOpen == old(deleteDialogOpen)
      ensures sent.Some? && response.Pass? ==>
        topics == RemoveById(old(topics), sent.value) && selectedTopic.None? && !deleteDialogOpen
      ensures sent.Some? ==> !deleting
      ensures sent.None? ==> deleting == old(deleting)
      ensures newTopicName == old(newTopicName) && editTopicName == old(editTopicName)
      ensures createDialogOpen == old(createDialogOpen) && editDialogOpen == old(editDialogOpen)
      ensures loading == old(loading) && submitting == old(submitting)
    {
      if selectedTopic.None? {
        return None;
      }
      sent := Some(selectedTopic.value.id);
      deleting := true;
      if response.Pass? {
        topics := RemoveById(topics, sent.value);
        deleteDialogOpen := false;
        selectedTopic := None;
      }
      deleting := false;
    }
  }
}
