/**
 * The session-scoped store (src/context/MealContext.tsx): the meal list, the
 * saved-meal identities and the calendar entries of the current session,
 * and the transitions the interface drives. Each handler is one atomic
 * transition; the answer of the service call it awaits is an input.
 */
module MealContext {
  import opened Outcomes
  import opened MealTypes
  import Seqs
  import MealService

  /** The store's state. */
  datatype Session = Session(meals: seq<Meal>, savedMeals: seq<string>, calendarEntries: seq<CalendarEntry>)

  /** The one demo meal shown as saved. */
  const DemoSavedId: string := "meal-2"

  /** `getDemoMeals`: the built-in seed set, in this order. */
  function DemoMeals(): (ms: seq<Meal>)
    ensures |ms| == 3 && ms[0].id == "meal-1" && ms[1].id == DemoSavedId && ms[2].id == "meal-3"
    ensures forall i :: 0 <= i < |ms| ==> (ms[i].isSaved <==> ms[i].id == DemoSavedId)
  {
    [DemoQuinoaBowl, DemoAvocadoToast, DemoChickenStirFry]
  }

  /** The first seed meal. */
  const DemoQuinoaBowl: Meal :=
    Meal("meal-1", DemoQuinoaBowlTitle, DemoQuinoaBowlImage, 25, 20, 8, 4, false,
      ["Vegetarian", "Gluten-Free"], DemoQuinoaBowlIngredients, DemoQuinoaBowlSteps)

  const DemoQuinoaBowlTitle: string := "Quinoa Bowl with Roasted Vegetables"
  const DemoQuinoaBowlImage: string :=
    "https://images.unsplash.com/photo-1512621776951-a57141f2eefd?w=500&q=80"
  const DemoQuinoaBowlIngredients: seq<RecipeIngredient> :=
    [RecipeIngredient("Quinoa", "1", "cup"),
     RecipeIngredient("Bell Peppers", "2", "whole"),
     RecipeIngredient("Zucchini", "1", "whole"),
     RecipeIngredient("Red Onion", "1", "whole"),
     RecipeIngredient("Olive Oil", "2", "tbsp"),
     RecipeIngredient("Lemon Juice", "1", "tbsp"),
     RecipeIngredient("Salt", "to taste", ""),
     RecipeIngredient("Pepper", "to taste", "")]
  const DemoQuinoaBowlSteps: seq<string> :=
    ["Rinse quinoa under cold water",
     "Cook quinoa according to package instructions",
     "Chop vegetables into bite-sized pieces",
     "Toss vegetables with olive oil, salt, and pepper",
     "Roast vegetables at 425\U{B0}F for 20 minutes",
     "Mix cooked quinoa with roasted vegetables",
     "Drizzle with lemon juice and serve"]

  /** The second seed meal, the one shown as saved. */
  const DemoAvocadoToast: Meal :=
    Meal("meal-2", DemoAvocadoToastTitle, DemoAvocadoToastImage, 15, 10, 5, 2, true,
      ["Vegetarian"], DemoAvocadoToastIngredients, DemoAvocadoToastSteps)

  const DemoAvocadoToastTitle: string := "Avocado Toast with Poached Eggs"
  const DemoAvocadoToastImage: string :=
    "https://images.unsplash.com/photo-1525351484163-7529414344d8?w=500&q=80"
  const DemoAvocadoToastIngredients: seq<RecipeIngredient> :=
    [RecipeIngredient("Whole Grain Bread", "2", "slices"),
     RecipeIngredient("Avocado", "1", "whole"),
     RecipeIngredient("Eggs", "2", "whole"),
     RecipeIngredient("Salt", "to taste", ""),
     RecipeIngredient("Pepper", "to taste", "")]
  const DemoAvocadoToastSteps: seq<string> :=
    ["Toast bread until golden brown",
     "Mash avocado and spread on toast",
     "Bring water to a simmer in a small pot",
     "Crack eggs into simmering water and cook for 3-4 minutes",
     "Remove eggs with a slotted spoon and place on avocado toast",
     "Season with salt and pepper"]

  /** The third seed meal. */
  const DemoChickenStirFry: Meal :=
    Meal("meal-3", DemoChickenStirFryTitle, DemoChickenStirFryImage, 20, 15, 10, 4, false,
      ["High-Protein"], DemoChickenStirFryIngredients, DemoChickenStirFrySteps)

  const DemoChickenStirFryTitle: string := "Chicken and Vegetable Stir Fry"
  const DemoChickenStirFryImage: string :=
    "https://images.unsplash.com/photo-1512058564366-18510be2db19?w=500&q=80"
  const DemoChickenStirFryIngredients: seq<RecipeIngredient> :=
    [RecipeIngredient("Chicken Breast", "1", "lb"),
     RecipeIngredient("Broccoli", "2", "cups"),
     RecipeIngredient("Carrots", "2", "whole"),
     RecipeIngredient("Bell Peppers", "1", "whole"),
     RecipeIngredient("Soy Sauce", "3", "tbsp"),
     RecipeIngredient("Garlic", "3", "cloves"),
     RecipeIngredient("Ginger", "1", "tbsp"),
     RecipeIngredient("Vegetable Oil", "2", "tbsp"),
     RecipeIngredient("Cornstarch", "1", "tsp"),
     RecipeIngredient("Rice", "2", "cups")]
  const DemoChickenStirFrySteps: seq<string> :=
    ["Cut chicken into bite-sized pieces",
     "Chop all vegetables",
     "Mix soy sauce, minced garlic, ginger, and cornstarch",
     "Heat oil in a wok or large pan",
     "Cook chicken until no longer pink",
     "Add vegetables and stir-fry until tender-crisp",
     "Pour sauce over and cook until thickened",
     "Serve over cooked rice"]

  /** Every meal's saved flag agrees with the saved-identity list. */
  predicate SavedConsistent(s: Session) {
    forall i :: 0 <= i < |s.meals| ==> (s.meals[i].isSaved <==> s.meals[i].id in s.savedMeals)
  }

  // ---------------------------------------------------------------------------
  // Initial load

  /**
   * What the three fetches of `loadInitialData` produced (the service already
   * turns its errors into empty lists), or an exception somewhere in the sequence.
   * The saved identities and the calendar are only fetched for a signed-in user.
   */
  datatype LoadReply = Loaded(meals: seq<Meal>, savedIds: seq<string>, entries: seq<CalendarEntry>) | LoadThrew

  /** The meal list shown: the fetched meals, or the seed set when none came back. */
  function MealsToUse(fetched: seq<Meal>): (ms: seq<Meal>)
    ensures |fetched| > 0 ==> ms == fetched
    ensures |fetched| == 0 ==> ms == DemoMeals()
  {
    if |fetched| == 0 then DemoMeals() else fetched
  }

  /** Each meal with its saved flag set by `isSaved`; nothing else changes. */
  function WithSavedFlags(meals: seq<Meal>, isSaved: string -> bool): (ms: seq<Meal>)
    ensures |ms| == |meals|
    ensures forall i :: 0 <= i < |meals| ==> ms[i] == meals[i].(isSaved := isSaved(meals[i].id))
  {
    Seqs.Map(meals, (m: Meal) => m.(isSaved := isSaved(m.id)))
  }

  /**
   * `loadInitialData`. A signed-in user's meals are flagged by membership in
   * the fetched saved identities; a visitor's by being the demo meal. The
   * saved list is the fetched one when non-empty, else the demo identity
   * exactly when the meal fetch came back empty. Any exception replaces the
   * whole state by the seed set, the demo identity and no calendar entries.
   */
  function LoadInitialData(signedIn: bool, reply: LoadReply): (s: Session)
    ensures reply.LoadThrew? ==> s == Session(DemoMeals(), [DemoSavedId], [])
    ensures reply.Loaded? && signedIn ==>
      s.meals == WithSavedFlags(MealsToUse(reply.meals), (id: string) => id in reply.savedIds)
      && s.calendarEntries == reply.entries
      && s.savedMeals == (if |reply.savedIds| > 0 then reply.savedIds
                          else if |reply.meals| == 0 then [DemoSavedId] else [])
    ensures reply.Loaded? && !signedIn ==>
      s.meals == WithSavedFlags(MealsToUse(reply.meals), (id: string) => id == DemoSavedId)
      && s.calendarEntries == []
      && s.savedMeals == (if |reply.meals| == 0 then [DemoSavedId] else [])
  {
    match reply
    case LoadThrew => Session(DemoMeals(), [DemoSavedId], [])
    case Loaded(fetched, savedIds, entries) =>
      var base := MealsToUse(fetched);
      if signedIn then
        Session(WithSavedFlags(base, (id: string) => id in savedIds),
                if |savedIds| > 0 then savedIds else if |fetched| == 0 then [DemoSavedId] else [],
                entries)
      else
        Session(WithSavedFlags(base, (id: string) => id == DemoSavedId),
                if |fetched| == 0 then [DemoSavedId] else [],
                [])
  }

  /**
   * A signed-in user whose saved table holds only the demo meal's identity
   * sees exactly that meal flagged and exactly that identity saved.
   */
  lemma LoadSignedInWithOneSavedMeal(fetched: seq<Meal>, entries: seq<CalendarEntry>)
    ensures var s := LoadInitialData(true, Loaded(fetched, [DemoSavedId], entries));
            s.savedMeals == [DemoSavedId]
            && |s.meals| == |MealsToUse(fetched)|
            && (forall i :: 0 <= i < |s.meals| ==> (s.meals[i].isSaved <==> s.meals[i].id == DemoSavedId))
            && SavedConsistent(s)
  {
  }

  /**
   * The load leaves the flags and the saved list in agreement: after an
   * exception, for a visitor when the meal fetch was empty, and for a
   * signed-in user with saved meals or with fetched meals.
   */
  lemma LoadIsConsistent(signedIn: bool, reply: LoadReply)
    requires reply.Loaded? ==> (if signedIn then |reply.savedIds| > 0 || |reply.meals| > 0 else |reply.meals| == 0)
    ensures SavedConsistent(LoadInitialData(signedIn, reply))
  {
    var s := LoadInitialData(signedIn, reply);
    if reply.Loaded? && !signedIn {
      forall i | 0 <= i < |s.meals| ensures s.meals[i].isSaved <==> s.meals[i].id in s.savedMeals {
        assert s.savedMeals == [DemoSavedId];
      }
    }
  }

  /**
   * A signed-in user with no saved meals and an empty meal table is shown the
   * demo identity as saved while no meal carries the saved flag: the two
   * views of "saved" disagree on the demo meal.
   */
  lemma LoadSignedInEmptyDisagrees(entries: seq<CalendarEntry>)
    ensures var s := LoadInitialData(true, Loaded([], [], entries));
            s.savedMeals == [DemoSavedId] && s.meals[1].id == DemoSavedId && !s.meals[1].isSaved
            && !SavedConsistent(s)
  {
    var s := LoadInitialData(true, Loaded([], [], entries));
    assert !s.meals[1].isSaved;
  }

  // ---------------------------------------------------------------------------
  // Saving

  /** The visitor's toggle: flip the flag of the matching meals, toggle the identity in the saved list. */
  function DemoToggleSave(s: Session, id: string): (t: Session)
    ensures |t.meals| == |s.meals|
    ensures forall i :: 0 <= i < |s.meals| && s.meals[i].id == id ==>
      t.meals[i] == s.meals[i].(isSaved := !s.meals[i].isSaved)
    ensures forall i :: 0 <= i < |s.meals| && s.meals[i].id != id ==> t.meals[i] == s.meals[i]
    ensures id in t.savedMeals <==> id !in s.savedMeals
    ensures id !in s.savedMeals ==> t.savedMeals == s.savedMeals + [id]
    ensures id in s.savedMeals ==> t.savedMeals == Seqs.Without(s.savedMeals, id)
    ensures t.calendarEntries == s.calendarEntries
  {
    Session(Seqs.Map(s.meals, (m: Meal) => if m.id == id then m.(isSaved := !m.isSaved) else m),
            Seqs.Toggle(s.savedMeals, id),
            s.calendarEntries)
  }

  /** Two visitor toggles restore every meal and the saved membership, and the exact list when the id was absent. */
  lemma DemoToggleTwice(s: Session, id: string)
    ensures var t := DemoToggleSave(DemoToggleSave(s, id), id);
            t.meals == s.meals && t.calendarEntries == s.calendarEntries
            && (id in t.savedMeals <==> id in s.savedMeals)
            && (forall i :: 0 <= i < |s.savedMeals| ==> s.savedMeals[i] in t.savedMeals)
            && (id !in s.savedMeals ==> t.savedMeals == s.savedMeals)
  {
    var t := DemoToggleSave(DemoToggleSave(s, id), id);
    assert |t.meals| == |s.meals|;
    forall i | 0 <= i < |s.meals| ensures t.meals[i] == s.meals[i] {
    }
    if id !in s.savedMeals {
      Seqs.ToggleTwiceAbsent(s.savedMeals, id);
    }
  }

  /** The visitor's toggle keeps flags and saved list in agreement. */
  lemma DemoTogglePreservesConsistency(s: Session, id: string)
    requires SavedConsistent(s)
    ensures SavedConsistent(DemoToggleSave(s, id))
  {
    var t := DemoToggleSave(s, id);
    forall i | 0 <= i < |t.meals| ensures t.meals[i].isSaved <==> t.meals[i].id in t.savedMeals {
      var m := s.meals[i];
      if m.id != id {
        assert m.id in t.savedMeals <==> m.id in s.savedMeals by {
          if m.id in s.savedMeals {
            var k :| 0 <= k < |s.savedMeals| && s.savedMeals[k] == m.id;
          }
          if m.id in t.savedMeals {
            var k :| 0 <= k < |t.savedMeals| && t.savedMeals[k] == m.id;
          }
        }
      }
    }
  }

  /**
   * The signed-in commit of the flag `saved` the service resolved: the
   * matching meals take that flag, the identity is in the saved list exactly
   * when `saved` holds, no duplicate is appended and other identities stay.
   */
  function CommitSaved(s: Session, id: string, saved: bool): (t: Session)
    ensures |t.meals| == |s.meals|
    ensures forall i :: 0 <= i < |s.meals| && s.meals[i].id == id ==> t.meals[i] == s.meals[i].(isSaved := saved)
    ensures forall i :: 0 <= i < |s.meals| && s.meals[i].id != id ==> t.meals[i] == s.meals[i]
    ensures id in t.savedMeals <==> saved
    ensures forall i :: 0 <= i < |s.savedMeals| && s.savedMeals[i] != id ==> s.savedMeals[i] in t.savedMeals
    ensures forall i :: 0 <= i < |t.savedMeals| && t.savedMeals[i] != id ==> t.savedMeals[i] in s.savedMeals
    ensures saved && id in s.savedMeals ==> t.savedMeals == s.savedMeals
    ensures saved && id !in s.savedMeals ==> t.savedMeals == s.savedMeals + [id]
    ensures t.calendarEntries == s.calendarEntries
  {
    var saved' :=
      if saved && id !in s.savedMeals then s.savedMeals + [id]
      else if !saved && id in s.savedMeals then Seqs.Without(s.savedMeals, id)
      else s.savedMeals;
    Session(Seqs.Map(s.meals, (m: Meal) => if m.id == id then m.(isSaved := saved) else m),
            saved', s.calendarEntries)
  }

  /** The signed-in commit keeps a duplicate-free saved list duplicate-free. */
  lemma CommitSavedNoDup(s: Session, id: string, saved: bool)
    requires Seqs.NoDup(s.savedMeals)
    ensures Seqs.NoDup(CommitSaved(s, id, saved).savedMeals)
  {
    if saved != (id in s.savedMeals) {
      Seqs.ToggleNoDup(s.savedMeals, id);
    }
  }

  /** The signed-in commit keeps flags and saved list in agreement. */
  lemma CommitSavedPreservesConsistency(s: Session, id: string, saved: bool)
    requires SavedConsistent(s)
    ensures SavedConsistent(CommitSaved(s, id, saved))
  {
    var t := CommitSaved(s, id, saved);
    forall i | 0 <= i < |t.meals| ensures t.meals[i].isSaved <==> t.meals[i].id in t.savedMeals {
      var m := s.meals[i];
      if m.id != id {
        assert m.id in t.savedMeals <==> m.id in s.savedMeals by {
          if m.id in s.savedMeals {
            var k :| 0 <= k < |s.savedMeals| && s.savedMeals[k] == m.id;
          }
          if m.id in t.savedMeals {
            var k :| 0 <= k < |t.savedMeals| && t.savedMeals[k] == m.id;
          }
        }
      }
    }
  }

  /**
   * `toggleSaveMeal`. A signed-in user commits the flag the service answered
   * (`None` when the call threw, which changes nothing); a visitor flips locally.
   */
  function ToggleSaveMeal(s: Session, signedIn: bool, id: string, answer: Option<bool>): (t: Session)
    ensures signedIn && answer.None? ==> t == s
    ensures signedIn && answer.Some? ==> t == CommitSaved(s, id, answer.value)
    ensures !signedIn ==> t == DemoToggleSave(s, id)
  {
    if signedIn then
      match answer
      case None => s
      case Some(saved) => CommitSaved(s, id, saved)
    else DemoToggleSave(s, id)
  }

  /**
   * Two signed-in toggles against a table where both writes succeed: the
   * table is restored, and the session's saved membership ends as the table's
   * original membership, whatever the session held before.
   */
  lemma SignedInToggleTwice(s: Session, table: set<MealService.SavedLink>, id: string, userId: string)
    ensures var link := MealService.SavedLink(id, userId);
            var first := MealService.ToggleSaveRemote(table, link, MealService.WriteOk);
            var s1 := ToggleSaveMeal(s, true, id, Some(first.0));
            var second := MealService.ToggleSaveRemote(first.1, link, MealService.WriteOk);
            var s2 := ToggleSaveMeal(s1, true, id, Some(second.0));
            second.1 == table && (id in s2.savedMeals <==> link in table)
            && (id in s1.savedMeals <==> link !in table)
  {
    MealService.ToggleSaveTwiceRestores(table, MealService.SavedLink(id, userId));
  }

  // ---------------------------------------------------------------------------
  // Calendar

  /**
   * `addToCalendar`. A visitor appends a fresh `temp-` entry with the given
   * fields and no owner. A signed-in user appends the entry the service
   * returned, or nothing when it returned `null` or threw (`None`).
   */
  function AddToCalendar(
    s: Session, signedIn: bool, mealId: string, date: Date, mealType: string, title: string,
    stamp: string, answer: Option<CalendarEntry>): (t: Session)
    ensures t.meals == s.meals && t.savedMeals == s.savedMeals
    ensures !signedIn ==>
      |t.calendarEntries| == |s.calendarEntries| + 1
      && t.calendarEntries[..|s.calendarEntries|] == s.calendarEntries
      && t.calendarEntries[|s.calendarEntries|]
         == CalendarEntry(Some(TempId(stamp)), mealId, date, mealType, title, None)
    ensures signedIn && answer.None? ==> t == s
    ensures signedIn && answer.Some? ==> t.calendarEntries == s.calendarEntries + [answer.value]
  {
    if signedIn then
      match answer
      case None => s
      case Some(entry) => s.(calendarEntries := s.calendarEntries + [entry])
    else
      s.(calendarEntries := s.calendarEntries + [CalendarEntry(Some(TempId(stamp)), mealId, date, mealType, title, None)])
  }

  /**
   * Through the real service the signed-in add always appends exactly one
   * entry, which carries the requested fields when a stored row echoes them.
   */
  lemma SignedInAddAlwaysAppends(
    s: Session, mealId: string, date: Date, mealType: string, title: string, userId: string,
    stamp: string, probe: MealService.ProbeReply, insert: MealService.InsertReply)
    requires insert.InsertedRow? ==>
      insert.row.mealId == mealId && insert.row.date == date && insert.row.mealType == mealType
      && insert.row.title == title && insert.row.userId == userId
    ensures var answer := MealService.AddMealToCalendar(mealId, date, mealType, title, userId, stamp, probe, insert);
            var t := AddToCalendar(s, true, mealId, date, mealType, title, stamp, answer);
            |t.calendarEntries| == |s.calendarEntries| + 1
            && t.calendarEntries[..|s.calendarEntries|] == s.calendarEntries
            && t.calendarEntries[|s.calendarEntries|].mealId == mealId
            && t.calendarEntries[|s.calendarEntries|].title == title
            && t.calendarEntries[|s.calendarEntries|].mealType == mealType
            && t.calendarEntries[|s.calendarEntries|].date == date
  {
    MealService.AddMealToCalendarCarriesRequest(mealId, date, mealType, title, userId, stamp, probe, insert);
  }

  /** What the signed-in removal saw: the service's answer, or an exception. */
  datatype RemoveAnswer = Answered(success: bool) | RemoveThrew

  /** The entries that do not carry the identity `entryId`, in their original order. */
  function EntriesWithout(entries: seq<CalendarEntry>, entryId: string): (r: seq<CalendarEntry>)
    ensures forall i :: 0 <= i < |r| ==> r[i] in entries && r[i].id != Some(entryId)
    ensures forall i :: 0 <= i < |entries| && entries[i].id != Some(entryId) ==> entries[i] in r
  {
    Seqs.Filter(entries, (e: CalendarEntry) => e.id != Some(entryId))
  }

  /**
   * `removeFromCalendar`. The entries with the identity go away for a visitor,
   * and for a signed-in user when the service answered `true` or threw; a
   * `false` answer keeps the list.
   */
  function RemoveFromCalendar(s: Session, signedIn: bool, entryId: string, answer: RemoveAnswer): (t: Session)
    ensures t.meals == s.meals && t.savedMeals == s.savedMeals
    ensures !signedIn || answer.RemoveThrew? || answer.success ==>
      t.calendarEntries == EntriesWithout(s.calendarEntries, entryId)
    ensures signedIn && answer == Answered(false) ==> t == s
  {
    if !signedIn || answer.RemoveThrew? || answer.success then
      s.(calendarEntries := EntriesWithout(s.calendarEntries, entryId))
    else s
  }

  /** Removal keeps the relative order of the remaining entries. */
  lemma EntriesWithoutConcat(a: seq<CalendarEntry>, b: seq<CalendarEntry>, entryId: string)
    ensures EntriesWithout(a + b, entryId) == EntriesWithout(a, entryId) + EntriesWithout(b, entryId)
  {
    Seqs.FilterConcat(a, b, (e: CalendarEntry) => e.id != Some(entryId));
  }

  /** A visitor's add followed by removing the new entry's fresh identity gives back the original state. */
  lemma DemoAddThenRemove(s: Session, mealId: string, date: Date, mealType: string, title: string, stamp: string)
    requires forall i :: 0 <= i < |s.calendarEntries| ==> s.calendarEntries[i].id != Some(TempId(stamp))
    ensures RemoveFromCalendar(AddToCalendar(s, false, mealId, date, mealType, title, stamp, None),
                               false, TempId(stamp), RemoveThrew) == s
  {
    var e := CalendarEntry(Some(TempId(stamp)), mealId, date, mealType, title, None);
    EntriesWithoutConcat(s.calendarEntries, [e], TempId(stamp));
    Seqs.FilterKeepsAll(s.calendarEntries, (x: CalendarEntry) => x.id != Some(TempId(stamp)));
    assert EntriesWithout([e], TempId(stamp)) == [];
  }

  /** Through the real service a signed-in removal of a `temp-` entry always takes effect. */
  lemma SignedInRemoveOfTempEntry(s: Session, stamp: string, reply: MealService.DeleteReply)
    ensures var answer := Answered(MealService.RemoveMealFromCalendar(TempId(stamp), reply));
            RemoveFromCalendar(s, true, TempId(stamp), answer).calendarEntries
            == EntriesWithout(s.calendarEntries, TempId(stamp))
  {
  }

  // ---------------------------------------------------------------------------
  // Filtering

  /**
   * The visitor branch of `getFilteredMeals`: no criteria gives the meal
   * list itself; otherwise the meals sharing a tag with the restrictions,
   * where an empty restriction list lets every meal through.
   */
  function DemoFilter(meals: seq<Meal>, filters: MealFilters): (r: seq<Meal>)
    ensures |filters.dietaryRestrictions| == 0 ==> r == meals
    ensures forall i :: 0 <= i < |r| ==> r[i] in meals
    ensures |filters.dietaryRestrictions| > 0 ==>
      forall i :: 0 <= i < |r| ==> SharesTag(r[i].dietaryTags, filters.dietaryRestrictions)
    ensures forall i :: 0 <= i < |meals| && SharesTag(meals[i].dietaryTags, filters.dietaryRestrictions) ==> meals[i] in r
  {
    var wanted := filters.dietaryRestrictions;
    if |wanted| == 0 && |filters.mealTypes| == 0 then meals
    else
      var keep := (m: Meal) => |wanted| == 0 || SharesTag(m.dietaryTags, wanted);
      assert |wanted| == 0 ==> Seqs.Filter(meals, keep) == meals by {
        if |wanted| == 0 {
          Seqs.FilterKeepsAll(meals, keep);
        }
      }
      Seqs.Filter(meals, keep)
  }

  /** The visitor filter keeps order: filtering two lists joined is joining their filtered lists. */
  lemma DemoFilterConcat(a: seq<Meal>, b: seq<Meal>, filters: MealFilters)
    ensures DemoFilter(a + b, filters) == DemoFilter(a, filters) + DemoFilter(b, filters)
  {
    var wanted := filters.dietaryRestrictions;
    if !(|wanted| == 0 && |filters.mealTypes| == 0) {
      var keep := (m: Meal) => |wanted| == 0 || SharesTag(m.dietaryTags, wanted);
      Seqs.FilterConcat(a, b, keep);
    }
  }

  /**
   * A single meal is kept exactly when no restriction is requested or it
   * shares a tag with the restrictions. With `DemoFilterConcat` this fixes
   * the visitor filter on every list: the order-preserving subsequence of
   * the meals that pass.
   */
  lemma DemoFilterSingle(m: Meal, filters: MealFilters)
    ensures DemoFilter([m], filters)
         == if |filters.dietaryRestrictions| == 0 || SharesTag(m.dietaryTags, filters.dietaryRestrictions) then [m] else []
  {
    assert [m][1..] == [];
  }

  /**
   * The visitor filter over freshly fetched meals answers exactly what the
   * backend's `filterMeals` answers for the same table.
   */
  lemma DemoFilterAgreesWithService(
    filters: MealFilters,
    rows: seq<MealService.MealRow>,
    parseIngredients: string -> Option<seq<RecipeIngredient>>,
    parseSteps: string -> Option<seq<string>>)
    ensures DemoFilter(MealService.FetchMeals(MealService.Rows(rows), parseIngredients, parseSteps), filters)
         == MealService.FilterMeals(filters, MealService.Rows(rows), parseIngredients, parseSteps)
  {
    var wanted := filters.dietaryRestrictions;
    if |wanted| > 0 {
      var f := (row: MealService.MealRow) => MealService.TransformMeal(row, parseIngredients, parseSteps);
      var keep := (m: Meal) => |wanted| == 0 || SharesTag(m.dietaryTags, wanted);
      var keepRow := (row: MealService.MealRow) => MealService.RowOverlaps(row, wanted);
      forall row ensures keepRow(row) == keep(f(row)) {
      }
      Seqs.FilterMap(rows, f, keep, keepRow);
    }
  }

  /**
   * `getFilteredMeals`: a signed-in user gets the service's answer (`[]` when
   * it threw, `None`); a visitor gets the local filter.
   */
  function GetFilteredMeals(s: Session, signedIn: bool, filters: MealFilters, answer: Option<seq<Meal>>): (r: seq<Meal>)
    ensures signedIn ==> r == answer.GetOr([])
    ensures !signedIn ==> r == DemoFilter(s.meals, filters)
  {
    if signedIn then answer.GetOr([]) else DemoFilter(s.meals, filters)
  }
}
