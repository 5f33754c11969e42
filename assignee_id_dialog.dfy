/**
 * The dialog in which an assignee enters their assignee id: the check it
 * makes on the typed text and the dialog's own state.
 */
module AssigneeIdDialog {
  import opened Wrappers
  import opened Text

  const Required: string := "Assignee ID is required"
  const NotPositive: string := "Assignee ID must be a positive number"

  /**
   * The submit check: blank text is missing, and the trimmed text must read
   * as a positive integer under `parseInt`; the id read is what is confirmed.
   */
  function ValidateAssigneeId(input: string): (r: Result<int, string>)
    ensures r.Ok? <==> ParseInt(Trim(input)).Some? && ParseInt(Trim(input)).value >= 1
    ensures r.Ok? ==> r.value >= 1 && ParseInt(Trim(input)) == Some(r.value)
    ensures r == Err(Required) <==> IsBlank(input)
    ensures r.Err? ==> r.error == Required || r.error == NotPositive
  {
    TrimEmptyIffBlank(input);
    var id := ParseInt(Trim(input));
    if Trim(input) == "" then Err(Required)
    else if id.None? || id.value <= 0 then Err(NotPositive)
    else Ok(id.value)
  }

  /**
   * The decimal form of a positive id is accepted as that id, and so is any
   * text after it that starts with something other than a digit.
   */
  lemma {:induction false} AcceptsDecimal(n: nat, rest: string)
    requires n >= 1
    requires rest == [] || (!IsDigit(rest[0]) && !IsSpace(rest[|rest| - 1]))
    ensures ValidateAssigneeId(NatToString(n) + rest) == Ok(n)
  {
    var s := NatToString(n) + rest;
    assert IsDigit(s[0]) && s[0] == NatToString(n)[0];
    assert !IsSpace(s[|s| - 1]) by {
      if rest == [] {
        assert s[|s| - 1] == NatToString(n)[|NatToString(n)| - 1];
        assert IsDigit(s[|s| - 1]);
      }
    }
    TrimOfTrimmed(s);
    ParseIntOfDecimal(n, rest);
  }

  /** Negative ids, and zero with or without a minus sign, are refused as not positive. */
  lemma {:induction false} RefusesNegative(n: nat)
    ensures ValidateAssigneeId("-" + NatToString(n)) == Err(NotPositive)
  {
    var s := "-" + NatToString(n);
    assert IsDigit(s[|s| - 1]) && s[|s| - 1] == NatToString(n)[|NatToString(n)| - 1];
    TrimOfTrimmed(s);
    ParseIntOfNegated(n);
    assert !IsSpace(s[0]);
  }

  lemma {:induction false} RefusesZero()
    ensures ValidateAssigneeId("0") == Err(NotPositive)
  {
    assert NatToString(0) + [] == "0";
    ParseIntOfDecimal(0, []);
    TrimOfTrimmed("0");
  }

  /** The dialog's state: the typed text and the shown error. */
  class AssigneeIdDialogState {
    var input: string
    var error: Option<string>

    constructor()
      ensures input == "" && error.None?
    {
      input := "";
      error := None;
    }

    /** Typing replaces the text and clears the error. */
    method Edit(text: string)
      modifies this
      ensures input == text && error.None?
    {
      input := text;
      error := None;
    }

    /**
     * Submitting: a valid id is confirmed and the field is cleared; otherwise
     * the message is shown and the text stays.
     */
    method HandleSubmit() returns (confirmed: Option<int>)
      modifies this
      ensures var v := ValidateAssigneeId(old(input));
        && (v.Ok? ==> confirmed == Some(v.value) && input == "" && error.None?)
        && (v.Err? ==> confirmed.None? && input == old(input) && error == Some(v.error))
    {
      error := None;
      var v := ValidateAssigneeId(input);
      if v.Err? {
        error := Some(v.error);
        return None;
      }
      confirmed := Some(v.value);
      input := "";
    }
  }

  /**
   * Closing the dialog cancels, when the page gave a cancel handler. The
   * requester-name dialog closes by the same rule.
   */
  function HandleClose(open: bool, hasCancel: bool): (cancelled: bool)
    ensures cancelled ==> !open
  {
    !open && hasCancel
  }
}
