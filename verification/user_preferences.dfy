/**
 * The profile's preference editor (src/components/profile/UserPreferences.tsx):
 * loading the user's row, and saving by update when a row identity is known
 * and by insert otherwise.
 */
module UserPreferences {
  import opened Outcomes
  import opened Preferences

  /** The editor's state. */
  datatype Editor = Editor(selection: Selection, preferencesId: Option<string>, success: bool, error: Option<string>)

  /** The editor as it mounts. */
  const InitialEditor: Editor := Editor(Selection([], [], []), None, false, None)

  /** A `user_preferences` row; a tag column may be `null`. */
  datatype PreferencesRow = PreferencesRow(
    id: string,
    dietaryRestrictions: Option<seq<string>>,
    mealPreferences: Option<seq<string>>,
    cuisinePreferences: Option<seq<string>>)

  /** What the `.single()` select answered: a row or none, and an error code or none; or an exception. */
  datatype FetchReply = Fetched(data: Option<PreferencesRow>, errorCode: Option<string>) | FetchThrew

  /** The code the backend gives when no row matches; the editor does not treat it as an error. */
  const NoRowCode: string := "PGRST116"

  /**
   * `fetchPreferences`: an error other than "no row" or an exception leaves
   * the editor as it was; a row sets the identity and the three lists, with
   * `null` columns read as empty lists. The fetch never sets the error text.
   */
  function ApplyFetch(e: Editor, reply: FetchReply): (r: Editor)
    ensures r.error == e.error && r.success == e.success
    ensures reply.FetchThrew? ==> r == e
    ensures reply.Fetched? && reply.errorCode.Some? && reply.errorCode.value != NoRowCode ==> r == e
    ensures reply.Fetched? && reply.data.None? ==> r == e
    ensures reply.Fetched? && reply.data.Some? && (reply.errorCode.None? || reply.errorCode == Some(NoRowCode)) ==>
      r.preferencesId == Some(reply.data.value.id)
      && r.selection == Selection(reply.data.value.dietaryRestrictions.GetOr([]),
                                  reply.data.value.mealPreferences.GetOr([]),
                                  reply.data.value.cuisinePreferences.GetOr([]))
  {
    match reply
    case FetchThrew => e
    case Fetched(data, code) =>
      if code.Some? && code.value != NoRowCode then e
      else match data
        case None => e
        case Some(row) =>
          e.(preferencesId := Some(row.id),
             selection := Selection(row.dietaryRestrictions.GetOr([]),
                                    row.mealPreferences.GetOr([]),
                                    row.cuisinePreferences.GetOr([])))
  }

  /** The write `handleSave` sends: an update of the known row when its identity is truthy, else an insert. */
  function SaveRequest(e: Editor, userId: string): (w: WriteRequest)
    ensures w.Update? <==> Truthy(e.preferencesId)
    ensures w.Update? ==> w.preferencesId == e.preferencesId.value
    ensures w.Insert? ==> w.userId == userId
    ensures w.selection == e.selection
  {
    if Truthy(e.preferencesId) then Update(e.preferencesId.value, e.selection)
    else Insert(userId, e.selection)
  }

  /**
   * `handleSave`. A failed write shows its message (or the default text) and
   * clears the success flag. A successful write sets the success flag, and
   * after an insert the identity the follow-up lookup found (`lookup`, `None`
   * when it found no row) becomes the row identity.
   */
  function HandleSave(e: Editor, userId: string, reply: WriteReply, lookup: Option<string>): (r: Editor)
    ensures r.selection == e.selection
    ensures reply.WriteFailed? ==>
      !r.success && r.error == Some(SaveErrorText(reply.message)) && r.preferencesId == e.preferencesId
    ensures reply.Written? ==> r.success && r.error.None?
    ensures reply.Written? && SaveRequest(e, userId).Insert? && lookup.Some? ==> r.preferencesId == lookup
    ensures reply.Written? && (SaveRequest(e, userId).Update? || lookup.None?) ==> r.preferencesId == e.preferencesId
  {
    match reply
    case WriteFailed(message) => e.(success := false, error := Some(SaveErrorText(message)))
    case Written =>
      var id := if !Truthy(e.preferencesId) && lookup.Some? then lookup else e.preferencesId;
      e.(success := true, error := None, preferencesId := id)
  }

  /**
   * A first save inserts; once it succeeded and the lookup found a row with a
   * non-empty identity, the next save updates that row with the then-current selection.
   */
  lemma InsertThenUpdate(userId: string, first: Selection, second: Selection, rowId: string)
    requires rowId != ""
    ensures var e0 := InitialEditor.(selection := first);
            var e1 := HandleSave(e0, userId, Written, Some(rowId));
            SaveRequest(e0, userId) == Insert(userId, first)
            && SaveRequest(e1.(selection := second), userId) == Update(rowId, second)
  {
  }

  /** A user without a row ("no row" code, no data) keeps the empty editor, with no error shown. */
  lemma MissingRowIsNotAnError()
    ensures ApplyFetch(InitialEditor, Fetched(None, Some(NoRowCode))) == InitialEditor
    ensures ApplyFetch(InitialEditor, Fetched(None, Some(NoRowCode))).error.None?
  {
  }

  /** A row whose tag columns are all `null` loads as three empty lists. */
  lemma NullColumnsLoadEmpty(e: Editor, id: string)
    ensures ApplyFetch(e, Fetched(Some(PreferencesRow(id, None, None, None)), None)).selection == Selection([], [], [])
  {
  }

  /**
   * After a fetch that loaded a row, the next save updates that row when
   * its identity is non-empty and inserts otherwise, sending the loaded lists.
   */
  lemma FetchedRowDecidesSave(e: Editor, row: PreferencesRow, code: Option<string>, userId: string)
    requires code.None? || code == Some(NoRowCode)
    ensures var loaded := Selection(row.dietaryRestrictions.GetOr([]), row.mealPreferences.GetOr([]),
                                    row.cuisinePreferences.GetOr([]));
            var w := SaveRequest(ApplyFetch(e, Fetched(Some(row), code)), userId);
            (row.id != "" ==> w == Update(row.id, loaded)) && (row.id == "" ==> w == Insert(userId, loaded))
  {
  }
}
