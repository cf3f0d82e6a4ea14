/**
 * The in-memory records of the meal planner: a meal with its recipe, a
 * calendar entry, the filter criteria, and the client-generated temporary
 * identities that mark records the backend never confirmed.
 */
module MealTypes {
  import opened Outcomes

  /** One line of a recipe; `amount` is free text so that "to taste" fits. */
  datatype RecipeIngredient = RecipeIngredient(name: string, amount: string, unit: string)

  /** A recipe as the interface shows it; `isSaved` is relative to the current session. */
  datatype Meal = Meal(
    id: string,
    title: string,
    image: string,
    prepTime: int,
    cookTime: int,
    ingredientCount: int,
    servings: int,
    isSaved: bool,
    dietaryTags: seq<string>,
    ingredients: seq<RecipeIngredient>,
    instructions: seq<string>)

  /** A JavaScript `Date`, reduced to its millisecond timestamp. */
  datatype Date = Date(millis: int)

  /** A scheduled meal; demo entries carry no owner, so `userId` is optional, and so is `id`. */
  datatype CalendarEntry = CalendarEntry(
    id: Option<string>,
    mealId: string,
    date: Date,
    mealType: string,
    title: string,
    userId: Option<string>)

  /** The criteria the filter bar reports. */
  datatype MealFilters = MealFilters(dietaryRestrictions: seq<string>, mealTypes: seq<string>)

  /** The marker that prefixes every client-generated identity. */
  const TempPrefix: string := "temp-"

  /** `id.startsWith("temp-")`. */
  predicate IsTempId(id: string) {
    |TempPrefix| <= |id| && id[..|TempPrefix|] == TempPrefix
  }

  /**
   * `` `temp-${Date.now()}` ``: the clock reading is not modelled, so the
   * suffix is an arbitrary `stamp` supplied by the caller.
   */
  function TempId(stamp: string): (id: string)
    ensures IsTempId(id)
    ensures |id| == |TempPrefix| + |stamp| && id[|TempPrefix|..] == stamp
  {
    TempPrefix + stamp
  }

  /** Does the meal carry at least one of the `wanted` tags? (`tags.some(t => wanted.includes(t))`; the test is symmetric.) */
  function SharesTag(tags: seq<string>, wanted: seq<string>): (b: bool)
    ensures b <==> exists j :: 0 <= j < |wanted| && wanted[j] in tags
  {
    exists i :: 0 <= i < |tags| && tags[i] in wanted
  }
}
