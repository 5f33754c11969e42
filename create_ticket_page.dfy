/**
 * The new-ticket form: the checks its submit handler makes, in order, and the
 * ticket data it hands to the client's `createTicket`.
 */
module CreateTicketPage {
  import opened Wrappers
  import opened Text
  import opened ClientTypes
  import ClientApi
  import Dtos

  const RequesterNameRequired: string := "Requester name is required"
  const TitleRequired: string := "Title is required"
  const TopicRequired: string := "Please select a topic"
  const DescriptionRequired: string := "Description is required"

  /** The form's fields as typed; the topic is the selected option's value, the topic id as text. */
  datatype Form = Form(requesterName: string, title: string, topicId: string, priority: string, description: string)

  const InitialForm: Form := Form("", "", "", "medium", "")

  /** A requester who stored a name always files under that name. */
  function StoredName(user: User): (r: Option<string>)
    ensures r.Some? <==> user.role == Requester && TruthyString(user.requesterName)
    ensures r.Some? ==> r == user.requesterName
  {
    if user.role == Requester && TruthyString(user.requesterName) then user.requesterName else None
  }

  /** The name the handler checks: the stored one, or the typed one trimmed. */
  function CheckedName(user: User, form: Form): (r: string)
    ensures StoredName(user).Some? ==> r == StoredName(user).value && r != ""
    ensures StoredName(user).None? ==> r == Trim(form.requesterName)
  {
    if StoredName(user).Some? then StoredName(user).value else Trim(form.requesterName)
  }

  /** The outcome of a submit: nothing without a user, an error message, or the data sent. */
  datatype Submission = NoUser | Rejected(message: string) | Submitted(data: ClientApi.NewTicket)

  /** The submit handler's decision. */
  function HandleSubmit(user: Option<User>, form: Form): (r: Submission)
    ensures r.NoUser? <==> user.None?
    ensures r == Rejected(RequesterNameRequired) <==> user.Some? && CheckedName(user.value, form) == ""
    ensures r == Rejected(TitleRequired) <==>
      user.Some? && CheckedName(user.value, form) != "" && Trim(form.title) == ""
    ensures r == Rejected(TopicRequired) <==>
      user.Some? && CheckedName(user.value, form) != "" && Trim(form.title) != "" && form.topicId == ""
    ensures r == Rejected(DescriptionRequired) <==>
      && user.Some? && CheckedName(user.value, form) != "" && Trim(form.title) != "" && form.topicId != ""
      && Trim(form.description) == ""
    ensures r.Submitted? <==>
      && user.Some? && CheckedName(user.value, form) != "" && Trim(form.title) != "" && form.topicId != ""
      && Trim(form.description) != ""
    ensures r.Submitted? ==>
      && r.data.title == form.title && r.data.description == form.description
      && r.data.priority == form.priority && r.data.topicId == ParseInt(form.topicId)
      && r.data.requesterId == user.value.id
      && r.data.requesterName == (if StoredName(user.value).Some? then StoredName(user.value).value else form.requesterName)
  {
    if user.None? then NoUser
    else
      var u := user.value;
      if CheckedName(u, form) == "" then Rejected(RequesterNameRequired)
      else if Trim(form.title) == "" then Rejected(TitleRequired)
      else if form.topicId == "" then Rejected(TopicRequired)
      else if Trim(form.description) == "" then Rejected(DescriptionRequired)
      else
        var finalName := if StoredName(u).Some? then StoredName(u).value else form.requesterName;
        Submitted(ClientApi.NewTicket(finalName, form.title, ParseInt(form.topicId), form.priority,
                                      form.description, u.id))
  }

  /** Whatever is typed in the name field, a requester with a stored name files under the stored name. */
  lemma StoredNameWins(user: User, form: Form, typed: string)
    requires StoredName(user).Some?
    ensures HandleSubmit(Some(user), form) == HandleSubmit(Some(user), form.(requesterName := typed))
    ensures HandleSubmit(Some(user), form).Submitted? ==>
      HandleSubmit(Some(user), form).data.requesterName == user.requesterName.value
  {
  }

  /**
   * A typed name is checked trimmed but handed over as typed; the request body
   * then trims it, so the server receives exactly the name that was checked.
   */
  lemma TypedNameReachesServerTrimmed(user: User, form: Form)
    requires StoredName(user).None?
    requires HandleSubmit(Some(user), form).Submitted?
    ensures var body := ClientApi.CreateTicketBody(HandleSubmit(Some(user), form).data);
      body["requester_name"] == Dtos.JStr(Trim(form.requesterName)) && Trim(form.requesterName) != ""
  {
  }

  /** The topic menu lists the active topics; an option's value is the topic id as decimal text. */
  function TopicOption(t: Topic): string
    requires t.id >= 0
  {
    NatToString(t.id)
  }

  /** Choosing a topic from the menu sends that topic's id. */
  lemma {:induction false} SelectedTopicIsSent(user: User, form: Form, t: Topic)
    requires t.id >= 0 && form.topicId == TopicOption(t)
    requires HandleSubmit(Some(user), form).Submitted?
    ensures HandleSubmit(Some(user), form).data.topicId == Some(t.id)
  {
    assert NatToString(t.id) + [] == NatToString(t.id);
    ParseIntOfDecimal(t.id, []);
  }

  /**
   * The title and description of a submitted ticket come back from the stored
   * description when the title has no line break and the description no blank line.
   */
  lemma SubmittedTicketReadsBack(user: User, form: Form)
    requires HandleSubmit(Some(user), form).Submitted?
    requires forall i :: 0 <= i < |form.title| ==> form.title[i] != '\n'
    requires !Contains(form.description, ClientApi.Separator)
    ensures var data := HandleSubmit(Some(user), form).data;
      ClientApi.SplitDescription(Some(ClientApi.EncodeDescription(data.title, data.description)))
        == (form.title, form.description)
  {
    assert form.title != [] && form.description != [];
    ClientApi.DescriptionRoundTrip(form.title, form.description);
  }

  /** Every ticket the form sends is refused by the server's create-ticket validation. */
  lemma SubmittedTicketIsRefused(user: User, form: Form)
    requires HandleSubmit(Some(user), form).Submitted?
    ensures Dtos.ValidateCreateTicket(ClientApi.CreateTicketBody(HandleSubmit(Some(user), form).data)).Err?
  {
    ClientApi.CreateTicketBodyIsRefused(HandleSubmit(Some(user), form).data);
  }
}
