/** The reset-password form: the submit handler's guard chain and the submit button's enabling
    condition. */
module ResetPassword {
  import Text

  datatype ResetCheck = TooShort | Mismatch | SubmitReset

  /** `handleSubmit`'s guards: a password shorter than 6 UTF-16 code units first, then a
      confirmation that differs; `resetPassword` is called only when both pass. */
  function CheckReset(password: string, confirm: string): (r: ResetCheck)
    ensures r == TooShort <==> Text.Utf16Length(password) < 6
    ensures r == Mismatch <==> Text.Utf16Length(password) >= 6 && password != confirm
    ensures r == SubmitReset <==> Text.Utf16Length(password) >= 6 && password == confirm
  {
    if Text.Utf16Length(password) < 6 then TooShort
    else if password != confirm then Mismatch
    else SubmitReset
  }

  /** `isFormValid`: both fields filled in and equal. */
  predicate IsFormValid(password: string, confirm: string) {
    password != [] && confirm != [] && password == confirm
  }

  /** Whenever the handler would submit, the button is enabled. */
  lemma SubmitNeedsValidForm(password: string, confirm: string)
    ensures CheckReset(password, confirm) == SubmitReset ==> IsFormValid(password, confirm)
  {
  }

  /** The converse fails: the button is enabled for a matching short password, which the handler
      then refuses. */
  lemma ValidFormMayBeTooShort()
    ensures IsFormValid("abc", "abc") && CheckReset("abc", "abc") == TooShort
  {
  }
}
