/**
 * The dialog in which a requester enters their name: the check it makes on
 * the typed text and the dialog's own state.
 */
module RequesterNameDialog {
  import opened Wrappers
  import opened Text
  import opened ClientTypes
  import CreateTicketPage
  import Dashboard

  const Required: string := "Requester name is required"
  const TooShort: string := "Requester name must be at least 2 characters"

  /** The submit check: the trimmed name must have at least two characters; the trimmed name is confirmed. */
  function ValidateRequesterName(input: string): (r: Result<string, string>)
    ensures r.Ok? <==> |Trim(input)| >= 2
    ensures r.Ok? ==> r.value == Trim(input)
    ensures r == Err(Required) <==> IsBlank(input)
    ensures r == Err(TooShort) <==> |Trim(input)| == 1
  {
    TrimEmptyIffBlank(input);
    var trimmed := Trim(input);
    if trimmed == "" then Err(Required)
    else if |trimmed| < 2 then Err(TooShort)
    else Ok(trimmed)
  }

  /** A confirmed name passes the check again unchanged. */
  lemma ConfirmedNameIsStable(input: string)
    requires ValidateRequesterName(input).Ok?
    ensures ValidateRequesterName(ValidateRequesterName(input).value) == ValidateRequesterName(input)
  {
    TrimOfTrimmed(Trim(input));
  }

  /**
   * A requester who stored a confirmed name passes the form's name check, and
   * the dashboard loads the tickets filed under that name.
   */
  lemma ConfirmedNameIsUsed(input: string, user: User, form: CreateTicketPage.Form)
    requires ValidateRequesterName(input).Ok?
    requires user.role == Requester && user.requesterName == Some(ValidateRequesterName(input).value)
    ensures CreateTicketPage.HandleSubmit(Some(user), form) != CreateTicketPage.Rejected(CreateTicketPage.RequesterNameRequired)
    ensures Dashboard.LoadArguments(Some(user)).1 == user.requesterName
  {
  }

  /** The dialog's state: the typed text and the shown error. */
  class RequesterNameDialogState {
    var input: string
    var error: Option<string>

    constructor()
      ensures input == "" && error.None?
    {
      input := "";
      error := None;
    }

    /** Typing replaces the text and clears the error. */
    method Edit(text: string)
      modifies this
      ensures input == text && error.None?
    {
      input := text;
      error := None;
    }

    /**
     * Submitting: a valid name is confirmed trimmed and the field is cleared;
     * otherwise the message is shown and the text stays.
     */
    method HandleSubmit() returns (confirmed: Option<string>)
      modifies this
      ensures var v := ValidateRequesterName(old(input));
        && (v.Ok? ==> confirmed == Some(v.value) && input == "" && error.None?)
        && (v.Err? ==> confirmed.None? && input == old(input) && error == Some(v.error))
    {
      error := None;
      var v := ValidateRequesterName(input);
      if v.Err? {
        error := Some(v.error);
        return None;
      }
      confirmed := Some(v.value);
      input := "";
    }
  }

  // Closing this dialog behaves as `AssigneeIdDialog.HandleClose` states.
}
