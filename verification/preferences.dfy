/**
 * What the two preference forms share: the three tag selections, the
 * toggle on each of them, the write they send to `user_preferences`, and
 * the error text shown when it fails.
 */
module Preferences {
  import Seqs

  /** The three independent selections. */
  datatype Selection = Selection(dietary: seq<string>, meals: seq<string>, cuisines: seq<string>)

  /** The write sent to `user_preferences`. */
  datatype WriteRequest =
    | Insert(userId: string, selection: Selection)
    | Update(preferencesId: string, selection: Selection)

  /** How the write ended: success, or an error with its `message` (empty when it has none). */
  datatype WriteReply = Written | WriteFailed(message: string)

  /** The text shown when the error carries no message. */
  const DefaultSaveError: string := "Failed to save preferences"

  /** `err.message || "Failed to save preferences"`. */
  function SaveErrorText(message: string): (text: string)
    ensures text != ""
    ensures message != "" ==> text == message
    ensures message == "" ==> text == DefaultSaveError
  {
    if message != "" then message else DefaultSaveError
  }

  /** `toggleSelection`: the item leaves the list if present and is appended at the end otherwise. */
  function ToggleSelection(selected: seq<string>, item: string): (r: seq<string>)
    ensures item in r <==> item !in selected
    ensures item !in selected ==> r == selected + [item]
    ensures item in selected ==> r == Seqs.Without(selected, item)
    ensures forall i :: 0 <= i < |selected| && selected[i] != item ==> selected[i] in r
    ensures forall i :: 0 <= i < |r| && r[i] != item ==> r[i] in selected
  {
    Seqs.Toggle(selected, item)
  }

  /** Toggling an absent item twice restores the list exactly. */
  lemma ToggleSelectionTwice(selected: seq<string>, item: string)
    requires item !in selected
    ensures ToggleSelection(ToggleSelection(selected, item), item) == selected
  {
    Seqs.ToggleTwiceAbsent(selected, item);
  }

  /** Toggling a present item removes every copy of it and keeps the others in order. */
  lemma ToggleRemovesEveryCopy(a: seq<string>, b: seq<string>, item: string)
    ensures ToggleSelection(a + [item] + b, item) == Seqs.Without(a, item) + Seqs.Without(b, item)
  {
    var s := a + [item] + b;
    assert s[|a|] == item;
    Seqs.WithoutAround(a, b, item);
  }
}
