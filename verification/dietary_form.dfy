/**
 * The onboarding preference form (src/components/auth/DietaryPreferencesForm.tsx):
 * the same three toggles as the profile editor, but submitting always
 * inserts a new row.
 */
module DietaryPreferencesForm {
  import opened Outcomes
  import opened Preferences
  import UserPreferences

  /** The form's state. */
  datatype Form = Form(selection: Selection, error: Option<string>)

  /** The write `handleSubmit` sends: always an insert of the three selections. */
  function SubmitRequest(f: Form, userId: string): (w: WriteRequest)
    ensures w.Insert? && w.userId == userId && w.selection == f.selection
  {
    Insert(userId, f.selection)
  }

  /** The form after a submit, and whether `onComplete` was called. */
  datatype Submitted = Submitted(form: Form, completed: bool)

  /**
   * `handleSubmit`: `onComplete` runs exactly when the insert reported no
   * error; otherwise the error shows its message or the default text.
   */
  function HandleSubmit(f: Form, reply: WriteReply): (s: Submitted)
    ensures s.completed <==> reply.Written?
    ensures s.form.selection == f.selection
    ensures reply.Written? ==> s.form.error.None?
    ensures reply.WriteFailed? ==> s.form.error == Some(SaveErrorText(reply.message))
  {
    match reply
    case Written => Submitted(f.(error := None), true)
    case WriteFailed(message) => Submitted(f.(error := Some(SaveErrorText(message))), false)
  }

  /**
   * The onboarding submit sends what the profile editor's first save sends;
   * unlike the editor it never switches to an update, so a second submit
   * inserts another row.
   */
  lemma SubmitMatchesFirstSave(f: Form, userId: string, rowId: string)
    ensures SubmitRequest(f, userId)
         == UserPreferences.SaveRequest(UserPreferences.InitialEditor.(selection := f.selection), userId)
    ensures SubmitRequest(HandleSubmit(f, Written).form, userId).Insert?
  {
  }
}
