/**
 * The pantry inventory list. src/components/inventory/InventoryPage.tsx and
 * src/components/inventory/InventoryTabContent.tsx carry the same three
 * handlers and the same seed lists line for line, so one module models both.
 * The backend's answer to each write is an input; the remove and update
 * handlers change the local list whatever the backend answered, so their
 * answer is not an input at all.
 */
module Inventory {
  import opened Outcomes
  import opened MealTypes
  import Seqs

  /** A pantry item; demo items carry the form's (possibly empty) expiry text, fetched rows may carry none. */
  datatype Item = Item(id: string, name: string, quantity: int, unit: string, expiryDate: Option<string>)

  /** The add-ingredient form. */
  datatype Form = Form(name: string, quantity: int, unit: string, expiryDate: string)

  /** The form as it opens and as every completed add leaves it. */
  const BlankForm: Form := Form("", 1, "item", "")

  /** The component state the handlers touch. */
  datatype Pantry = Pantry(items: seq<Item>, form: Form, dialogOpen: bool)

  /** The list a visitor sees. */
  function DemoSeed(): (items: seq<Item>)
    ensures |items| == 3
    ensures items[0].id == "1" && items[1].id == "2" && items[2].id == "3"
    ensures forall i :: 0 <= i < |items| ==> items[i].quantity >= 0
  {
    [Item("1", "Quinoa", 2, "cups", None),
     Item("2", "Bell Peppers", 3, "whole", None),
     Item("3", "Chicken Breast", 1, "lb", Some("2023-05-30"))]
  }

  /** The list shown when the signed-in fetch fails: the first two demo items. */
  function FallbackSeed(): (items: seq<Item>)
    ensures |items| == 2 && items == DemoSeed()[..2]
  {
    [Item("1", "Quinoa", 2, "cups", None),
     Item("2", "Bell Peppers", 3, "whole", None)]
  }

  /** The signed-in fetch: the user's rows, or a failure of the probe, the select, or an exception. */
  datatype FetchReply = Fetched(rows: seq<Item>) | FetchFailed

  /** The list after mounting: the demo list for a visitor, the rows, or the two-item fallback on failure. */
  function LoadItems(signedIn: bool, reply: FetchReply): (items: seq<Item>)
    ensures !signedIn ==> items == DemoSeed()
    ensures signedIn && reply.Fetched? ==> items == reply.rows
    ensures signedIn && reply.FetchFailed? ==> items == FallbackSeed()
  {
    if !signedIn then DemoSeed()
    else match reply
      case Fetched(rows) => rows
      case FetchFailed => FallbackSeed()
  }

  /** The insert in `handleAddIngredient`: the rows it selected back, or an error or exception. */
  datatype InsertReply = Inserted(rows: seq<Item>) | InsertFailed

  /** The locally built item: a `temp-` identity and the form's fields. */
  function LocalItem(form: Form, stamp: string): (item: Item)
    ensures IsTempId(item.id)
    ensures item.name == form.name && item.quantity == form.quantity && item.unit == form.unit
    ensures item.expiryDate == Some(form.expiryDate)
  {
    Item(TempId(stamp), form.name, form.quantity, form.unit, Some(form.expiryDate))
  }

  /**
   * `handleAddIngredient`. An empty name does nothing. Otherwise a visitor,
   * or a signed-in user whose insert failed, appends the local item; a
   * successful insert appends its first returned row, or nothing when it
   * returned none. Then the form is blanked and the dialog closed.
   */
  function AddItem(p: Pantry, signedIn: bool, stamp: string, reply: InsertReply): (q: Pantry)
    ensures p.form.name == "" ==> q == p
    ensures p.form.name != "" ==> q.form == BlankForm && !q.dialogOpen
    ensures p.form.name != "" ==>
      (|q.items| == |p.items| + 1 && q.items[..|p.items|] == p.items)
      || (signedIn && reply == Inserted([]) && q.items == p.items)
    ensures p.form.name != "" && (!signedIn || reply.InsertFailed?) ==>
      q.items == p.items + [LocalItem(p.form, stamp)]
    ensures p.form.name != "" && signedIn && reply.Inserted? && |reply.rows| > 0 ==>
      q.items == p.items + [reply.rows[0]]
    ensures p.form.name != "" && signedIn && reply == Inserted([]) ==> q.items == p.items
  {
    if p.form.name == "" then p
    else
      var items :=
        if !signedIn then p.items + [LocalItem(p.form, stamp)]
        else match reply
          case Inserted(rows) => if |rows| > 0 then p.items + [rows[0]] else p.items
          case InsertFailed => p.items + [LocalItem(p.form, stamp)];
      Pantry(items, BlankForm, false)
  }

  /** `handleRemoveIngredient`: every item with the identity dropped, the rest kept in order. */
  function RemoveItem(items: seq<Item>, id: string): (r: seq<Item>)
    ensures forall i :: 0 <= i < |r| ==> r[i] in items && r[i].id != id
    ensures forall i :: 0 <= i < |items| && items[i].id != id ==> items[i] in r
  {
    Seqs.Filter(items, (it: Item) => it.id != id)
  }

  /** Removal keeps the relative order of what remains. */
  lemma RemoveItemConcat(a: seq<Item>, b: seq<Item>, id: string)
    ensures RemoveItem(a + b, id) == RemoveItem(a, id) + RemoveItem(b, id)
  {
    Seqs.FilterConcat(a, b, (it: Item) => it.id != id);
  }

  /** Removing the fresh identity of a just-added local item gives back the list before the add. */
  lemma AddThenRemoveRestores(p: Pantry, stamp: string)
    requires p.form.name != ""
    requires forall i :: 0 <= i < |p.items| ==> p.items[i].id != TempId(stamp)
    ensures RemoveItem(AddItem(p, false, stamp, InsertFailed).items, TempId(stamp)) == p.items
  {
    var item := LocalItem(p.form, stamp);
    RemoveItemConcat(p.items, [item], TempId(stamp));
    Seqs.FilterKeepsAll(p.items, (it: Item) => it.id != TempId(stamp));
    assert RemoveItem([item], TempId(stamp)) == [];
  }

  /**
   * `handleUpdateQuantity`: a negative quantity is ignored; otherwise the
   * matching items take the new quantity and nothing else changes.
   */
  function UpdateQuantity(items: seq<Item>, id: string, quantity: int): (r: seq<Item>)
    ensures quantity < 0 ==> r == items
    ensures |r| == |items|
    ensures quantity >= 0 ==> forall i :: 0 <= i < |items| && items[i].id == id ==>
      r[i] == items[i].(quantity := quantity)
    ensures forall i :: 0 <= i < |items| && items[i].id != id ==> r[i] == items[i]
  {
    if quantity < 0 then items
    else Seqs.Map(items, (it: Item) => if it.id == id then it.(quantity := quantity) else it)
  }

  /** No item holds a negative quantity. */
  predicate NonNegative(items: seq<Item>) {
    forall i :: 0 <= i < |items| ==> items[i].quantity >= 0
  }

  /** An update never makes a quantity negative. */
  lemma UpdateKeepsNonNegative(items: seq<Item>, id: string, quantity: int)
    requires NonNegative(items)
    ensures NonNegative(UpdateQuantity(items, id, quantity))
  {
  }

  /** The decrement button of item `k` is enabled unless its quantity is at most zero: exactly when a click would change the list. */
  function DecrementEnabled(items: seq<Item>, k: nat): (b: bool)
    requires k < |items|
    ensures b <==> UpdateQuantity(items, items[k].id, items[k].quantity - 1) != items
  {
    !(items[k].quantity <= 0)
  }

  /**
   * Clicking an enabled decrement lowers that item's quantity by one and
   * keeps every quantity non-negative; at zero the button is disabled and
   * a click reaching the handler anyway would be ignored.
   */
  lemma DecrementStaysNonNegative(items: seq<Item>, k: nat)
    requires k < |items| && NonNegative(items)
    ensures DecrementEnabled(items, k) ==>
      var r := UpdateQuantity(items, items[k].id, items[k].quantity - 1);
      NonNegative(r) && r[k].quantity == items[k].quantity - 1
    ensures !DecrementEnabled(items, k) ==>
      UpdateQuantity(items, items[k].id, items[k].quantity - 1) == items
  {
  }

  /** Every list a load produces is free of negative quantities when the fetched rows are. */
  lemma LoadedItemsNonNegative(signedIn: bool, reply: FetchReply)
    requires reply.Fetched? ==> NonNegative(reply.rows)
    ensures NonNegative(LoadItems(signedIn, reply))
  {
  }
}
