/**
 * The dialog that confirms a topic deletion: the word it asks for and what
 * confirming and cancelling do to the typed text.
 */
module DeleteTopicDialog {
  import opened Text

  const ConfirmWord: string := "delete"

  /** The typed text, lower-cased, is the confirmation word. */
  predicate IsConfirmed(text: string)
    ensures IsConfirmed(text) ==> |text| == |ConfirmWord|
  {
    ToLower(text) == ConfirmWord
  }

  /** The confirmation accepts exactly the spellings of "delete" in any mix of upper and lower case. */
  lemma ConfirmedIffAnyCase(text: string)
    ensures IsConfirmed(text) <==>
      |text| == |ConfirmWord| && forall i :: 0 <= i < |text| ==> text[i] == ConfirmWord[i] || text[i] == ToUpper(ConfirmWord)[i]
  {
    if |text| == |ConfirmWord| {
      if IsConfirmed(text) {
        forall i | 0 <= i < |text| ensures text[i] == ConfirmWord[i] || text[i] == ToUpper(ConfirmWord)[i] {
          assert LowerChar(text[i]) == ConfirmWord[i];
        }
      }
      if forall i :: 0 <= i < |text| ==> text[i] == ConfirmWord[i] || text[i] == ToUpper(ConfirmWord)[i] {
        assert forall i :: 0 <= i < |text| ==> ToLower(text)[i] == ConfirmWord[i];
      }
    }
  }

  /** The delete button is enabled only for a confirmed text and while no delete is running. */
  predicate DeleteEnabled(text: string, isDeleting: bool)
    ensures DeleteEnabled(text, isDeleting) <==>
      && !isDeleting && |text| == |ConfirmWord|
      && forall i :: 0 <= i < |text| ==> text[i] == ConfirmWord[i] || text[i] == ToUpper(ConfirmWord)[i]
  {
    ConfirmedIffAnyCase(text);
    IsConfirmed(text) && !isDeleting
  }

  /** The dialog's typed text. */
  class DeleteTopicDialogState {
    var confirmText: string

    constructor()
      ensures confirmText == ""
    {
      confirmText := "";
    }

    method Edit(text: string)
      modifies this
      ensures confirmText == text
    {
      confirmText := text;
    }

    /** Confirming goes ahead, and clears the text, only when the text is confirmed. */
    method HandleConfirm() returns (confirmed: bool)
      modifies this
      ensures confirmed == IsConfirmed(old(confirmText))
      ensures confirmText == if confirmed then "" else old(confirmText)
    {
      confirmed := IsConfirmed(confirmText);
      if confirmed {
        confirmText := "";
      }
    }

    /** Cancelling always clears the text. */
    method HandleCancel()
      modifies this
      ensures confirmText == ""
    {
      confirmText := "";
    }

    /** Closing the dialog by any means is a cancel; opening changes nothing. */
    method OnOpenChange(open: bool) returns (cancelled: bool)
      modifies this
      ensures cancelled == !open
      ensures confirmText == if open then old(confirmText) else ""
    {
      cancelled := !open;
      if !open {
        HandleCancel();
      }
    }
  }
}
