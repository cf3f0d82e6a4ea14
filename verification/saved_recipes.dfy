/**
 * The saved-recipes page (src/components/saved/SavedRecipesPage.tsx): the
 * projection of the session's meals onto the saved identities, the recipe
 * a click opens, the guarded save button, and the add-to-calendar confirm.
 */
module SavedRecipesPage {
  import opened Outcomes
  import opened MealTypes
  import Seqs
  import MealContext

  /** Is the meal among the saved identities? */
  predicate IsSavedMeal(savedIds: seq<string>, m: Meal) {
    m.id in savedIds
  }

  /** The meal as the page shows it: marked saved, otherwise untouched. */
  function MarkSaved(m: Meal): Meal {
    m.(isSaved := true)
  }

  /**
   * `loadSavedMeals`: the session's meals whose identity is saved, in the
   * session's order, each marked saved.
   */
  function SavedList(meals: seq<Meal>, savedIds: seq<string>): (r: seq<Meal>)
    ensures |r| <= |meals|
    ensures |savedIds| == 0 ==> r == []
    ensures forall i :: 0 <= i < |r| ==> r[i].isSaved && r[i].id in savedIds
    ensures forall i :: 0 <= i < |r| ==> exists j :: 0 <= j < |meals| && r[i] == MarkSaved(meals[j])
    ensures forall j :: 0 <= j < |meals| && meals[j].id in savedIds ==> MarkSaved(meals[j]) in r
  {
    var kept := Seqs.Filter(meals, (m: Meal) => IsSavedMeal(savedIds, m));
    var r := Seqs.Map(kept, MarkSaved);
    assert |kept| > 0 ==> kept[0].id in savedIds;
    assert forall i :: 0 <= i < |r| ==> r[i] == MarkSaved(kept[i]) && kept[i] in meals;
    assert forall j :: 0 <= j < |meals| && meals[j].id in savedIds ==> exists k :: 0 <= k < |kept| && kept[k] == meals[j];
    r
  }

  /** The projection keeps the session's order: it distributes over concatenation. */
  lemma SavedListConcat(a: seq<Meal>, b: seq<Meal>, savedIds: seq<string>)
    ensures SavedList(a + b, savedIds) == SavedList(a, savedIds) + SavedList(b, savedIds)
  {
    var keep := (m: Meal) => IsSavedMeal(savedIds, m);
    Seqs.FilterConcat(a, b, keep);
    Seqs.MapConcat(Seqs.Filter(a, keep), Seqs.Filter(b, keep), MarkSaved);
  }

  /** The first meal with the identity (`list.find(m => m.id === id)`), or `None` when there is none. */
  function Find(meals: seq<Meal>, id: string): (r: Option<Meal>)
    ensures r.None? <==> forall i :: 0 <= i < |meals| ==> meals[i].id != id
    ensures r.Some? ==> exists k :: 0 <= k < |meals| && meals[k] == r.value && r.value.id == id
                                   && forall i :: 0 <= i < k ==> meals[i].id != id
  {
    if |meals| == 0 then None
    else if meals[0].id == id then Some(meals[0])
    else
      var r := Find(meals[1..], id);
      assert r.Some? ==> exists k :: 1 <= k < |meals| && meals[k] == r.value && r.value.id == id
                                     && forall i :: 0 <= i < k ==> meals[i].id != id by {
        if r.Some? {
          var k :| 0 <= k < |meals[1..]| && meals[1..][k] == r.value && r.value.id == id
                   && forall i :: 0 <= i < k ==> meals[1..][i].id != id;
          assert meals[k + 1] == r.value;
          assert forall i :: 0 <= i < k + 1 ==> meals[i].id != id by {
            forall i | 0 <= i < k + 1 ensures meals[i].id != id {
              if i > 0 { assert meals[i] == meals[1..][i - 1]; }
            }
          }
        }
      }
      r
  }

  /** The recipe shown when nothing better is found; it always reads as saved, with identity "1". */
  function DefaultRecipe(): (m: Meal)
    ensures m.id == "1" && m.isSaved
    ensures |m.ingredients| == m.ingredientCount == 9 && |m.instructions| == 8
  {
    Meal("1", DefaultTitle, DefaultImage, 15, 20, 9, 4, true, ["Vegan", "Gluten-Free"],
      DefaultIngredients, DefaultSteps)
  }

  const DefaultTitle: string := "Vegetable Stir Fry with Tofu"
  const DefaultImage: string :=
    "https://images.unsplash.com/photo-1512621776951-a57141f2eefd?w=800&q=80"
  const DefaultIngredients: seq<RecipeIngredient> :=
    [RecipeIngredient("Firm Tofu", "14", "oz"),
     RecipeIngredient("Broccoli", "2", "cups"),
     RecipeIngredient("Bell Peppers", "2", "medium"),
     RecipeIngredient("Carrots", "2", "medium"),
     RecipeIngredient("Soy Sauce", "3", "tbsp"),
     RecipeIngredient("Sesame Oil", "1", "tbsp"),
     RecipeIngredient("Garlic", "3", "cloves"),
     RecipeIngredient("Ginger", "1", "tbsp"),
     RecipeIngredient("Rice", "2", "cups")]
  const DefaultSteps: seq<string> :=
    ["Press tofu to remove excess water, then cut into 1-inch cubes.",
     "Chop all vegetables into bite-sized pieces.",
     "Heat sesame oil in a large wok or skillet over medium-high heat.",
     // The file stores this step's accent twice encoded: U+00C3 U+00A9 instead of U+00E9.
     "Add garlic and ginger, saut\U{C3}\U{A9} for 30 seconds until fragrant.",
     "Add tofu and cook until golden brown on all sides, about 5 minutes.",
     "Add vegetables and stir-fry for 5-7 minutes until crisp-tender.",
     "Pour in soy sauce and any other seasonings, toss to coat.",
     "Serve hot over cooked rice."]

  /** What `fetchMealById` gave a signed-in click: a meal, `null`, or an exception. */
  datatype DetailsReply = Details(found: Option<Meal>) | DetailsThrew

  /**
   * `handleMealClick`: a signed-in user sees the fetched details when there
   * are any; otherwise (and always for a visitor, who fetches nothing) the
   * first saved-list meal with the identity, else the default recipe.
   */
  function ShownRecipe(signedIn: bool, savedList: seq<Meal>, id: string, reply: DetailsReply): (m: Meal)
    ensures signedIn && reply.Details? && reply.found.Some? ==> m == reply.found.value
    ensures !(signedIn && reply.Details? && reply.found.Some?) ==>
      (m in savedList && m.id == id) || (m == DefaultRecipe() && forall i :: 0 <= i < |savedList| ==> savedList[i].id != id)
  {
    if signedIn && reply.Details? && reply.found.Some? then reply.found.value
    else Find(savedList, id).GetOr(DefaultRecipe())
  }

  /**
   * Clicking a meal that is missing from the saved list opens the default
   * recipe, whose identity is "1" whatever was clicked, and which is marked
   * saved even when "1" is not saved.
   */
  lemma MissingClickShowsDefault(savedList: seq<Meal>, id: string, reply: DetailsReply)
    requires forall i :: 0 <= i < |savedList| ==> savedList[i].id != id
    ensures ShownRecipe(false, savedList, id, reply) == DefaultRecipe()
    ensures ShownRecipe(false, savedList, id, reply).id == "1"
  {
  }

  /**
   * A signed-in click whose fetch threw or found nothing shows what a
   * visitor's click shows: the saved-list meal, else the default recipe.
   */
  lemma FailedFetchFallsBackLikeVisitor(savedList: seq<Meal>, id: string, reply: DetailsReply)
    ensures ShownRecipe(true, savedList, id, DetailsThrew) == ShownRecipe(false, savedList, id, reply)
    ensures ShownRecipe(true, savedList, id, Details(None)) == ShownRecipe(false, savedList, id, reply)
  {
  }

  /** The state after a save click: the session, and whether the sign-in dialog opened. */
  datatype Guarded = Guarded(session: MealContext.Session, authShown: bool)

  /**
   * `handleSaveMeal`: a visitor only sees the sign-in dialog; a signed-in
   * user toggles through the session store (`answer` is the service's flag,
   * `None` when it threw).
   */
  function HandleSaveMeal(s: MealContext.Session, signedIn: bool, id: string, answer: Option<bool>): (g: Guarded)
    ensures !signedIn ==> g.session == s && g.authShown
    ensures signedIn ==> !g.authShown
    ensures signedIn && answer.None? ==> g.session == s
    ensures signedIn && answer.Some? ==> (id in g.session.savedMeals <==> answer.value)
    ensures g.session.calendarEntries == s.calendarEntries
  {
    if !signedIn then Guarded(s, true)
    else Guarded(MealContext.ToggleSaveMeal(s, true, id, answer), false)
  }

  /** Un-saving from the page removes that meal from the page's list. */
  lemma UnsaveLeavesSavedList(s: MealContext.Session, id: string)
    ensures var t := HandleSaveMeal(s, true, id, Some(false)).session;
            forall i :: 0 <= i < |SavedList(t.meals, t.savedMeals)| ==> SavedList(t.meals, t.savedMeals)[i].id != id
  {
  }

  /** Saving from the page (the service answered `true`) puts every session meal with that identity on the list. */
  lemma SaveJoinsSavedList(s: MealContext.Session, id: string, k: nat)
    requires k < |s.meals| && s.meals[k].id == id
    ensures var t := HandleSaveMeal(s, true, id, Some(true)).session;
            MarkSaved(s.meals[k]) in SavedList(t.meals, t.savedMeals)
  {
    var t := HandleSaveMeal(s, true, id, Some(true)).session;
    assert t.meals[k] == s.meals[k].(isSaved := true);
    assert MarkSaved(t.meals[k]) == MarkSaved(s.meals[k]);
  }

  /**
   * `handleAddToCalendarConfirm`: only when a meal was selected (a non-empty
   * identity) and it is on the saved list does it add to the calendar, with
   * that meal's title. The calendar dialog closes in every case.
   */
  function ConfirmAddToCalendar(
    s: MealContext.Session, signedIn: bool, selected: Option<string>, savedList: seq<Meal>,
    date: Date, mealType: string, stamp: string, answer: Option<CalendarEntry>): (t: MealContext.Session)
    ensures t.meals == s.meals && t.savedMeals == s.savedMeals
    ensures !Truthy(selected) ==> t == s
    ensures Truthy(selected) && (forall i :: 0 <= i < |savedList| ==> savedList[i].id != selected.value) ==> t == s
    ensures Truthy(selected) && Find(savedList, selected.value).Some? && !signedIn ==>
      |t.calendarEntries| == |s.calendarEntries| + 1
      && t.calendarEntries[..|s.calendarEntries|] == s.calendarEntries
      && t.calendarEntries[|s.calendarEntries|].mealId == selected.value
      && t.calendarEntries[|s.calendarEntries|].title == Find(savedList, selected.value).value.title
    ensures Truthy(selected) && Find(savedList, selected.value).Some? && signedIn ==>
      t.calendarEntries == s.calendarEntries + (if answer.Some? then [answer.value] else [])
  {
    if !Truthy(selected) then s
    else match Find(savedList, selected.value)
      case None => s
      case Some(m) => MealContext.AddToCalendar(s, signedIn, selected.value, date, mealType, m.title, stamp, answer)
  }

  /**
   * A visitor's confirmed add is undone by removing the entry's fresh
   * identity, whether or not the selection was on the saved list.
   */
  lemma ConfirmThenRemoveRestores(
    s: MealContext.Session, selected: Option<string>, savedList: seq<Meal>,
    date: Date, mealType: string, stamp: string, answer: Option<CalendarEntry>)
    requires forall i :: 0 <= i < |s.calendarEntries| ==> s.calendarEntries[i].id != Some(TempId(stamp))
    ensures MealContext.RemoveFromCalendar(
              ConfirmAddToCalendar(s, false, selected, savedList, date, mealType, stamp, answer),
              false, TempId(stamp), MealContext.RemoveThrew) == s
  {
    if Truthy(selected) && Find(savedList, selected.value).Some? {
      MealContext.DemoAddThenRemove(s, selected.value, date, mealType, Find(savedList, selected.value).value.title, stamp);
    } else {
      Seqs.FilterKeepsAll(s.calendarEntries, (x: CalendarEntry) => x.id != Some(TempId(stamp)));
    }
  }
}
