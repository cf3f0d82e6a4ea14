/**
 * The recipe dialog (src/components/meal/RecipeDetailModal.tsx): its default
 * recipe, the servings counter, the saved indicator and the guarded save.
 */
module RecipeDetailModal {
  import opened Outcomes
  import opened MealTypes
  import MealContext
  import SavedRecipesPage

  /** The recipe the dialog receives: a meal without its count and saved flag. */
  datatype Recipe = Recipe(
    id: string,
    title: string,
    image: string,
    prepTime: int,
    cookTime: int,
    servings: int,
    ingredients: seq<RecipeIngredient>,
    instructions: seq<string>,
    dietaryTags: seq<string>)

  /** A meal handed to the dialog. */
  function FromMeal(m: Meal): (r: Recipe)
    ensures r.id == m.id && r.title == m.title && r.servings == m.servings
    ensures r.ingredients == m.ingredients && r.instructions == m.instructions && r.dietaryTags == m.dietaryTags
  {
    Recipe(m.id, m.title, m.image, m.prepTime, m.cookTime, m.servings, m.ingredients, m.instructions, m.dietaryTags)
  }

  /** The recipe the dialog shows when it is given none. */
  function DefaultRecipe(): (r: Recipe)
    ensures r.id == "1" && r.servings == 4
    ensures |r.ingredients| == 9 && |r.instructions| == 8
  {
    Recipe("1", DefaultTitle, DefaultImage, 15, 20, 4, DefaultIngredients, DefaultSteps, ["Vegan", "Gluten-Free"])
  }

  const DefaultTitle: string := "Vegetable Stir Fry with Tofu"
  const DefaultImage: string :=
    "https://images.unsplash.com/photo-1512621776951-a57141f2eefd?w=800&q=80"
  const DefaultIngredients: seq<RecipeIngredient> :=
    [RecipeIngredient("Firm Tofu", "14", "oz"),
     RecipeIngredient("Broccoli", "2", "cups"),
     RecipeIngredient("Bell Peppers", "2", "medium"),
     RecipeIngredient("Carrots", "2", "medium"),
     RecipeIngredient("Soy Sauce", "3", "tbsp"),
     RecipeIngredient("Sesame Oil", "1", "tbsp"),
     RecipeIngredient("Garlic", "3", "cloves"),
     RecipeIngredient("Ginger", "1", "tbsp"),
     RecipeIngredient("Rice", "2", "cups")]
  const DefaultSteps: seq<string> :=
    ["Press tofu to remove excess water, then cut into 1-inch cubes.",
     "Chop all vegetables into bite-sized pieces.",
     "Heat sesame oil in a large wok or skillet over medium-high heat.",
     "Add garlic and ginger, saut\U{E9} for 30 seconds until fragrant.",
     "Add tofu and cook until golden brown on all sides, about 5 minutes.",
     "Add vegetables and stir-fry for 5-7 minutes until crisp-tender.",
     "Pour in soy sauce and any other seasonings, toss to coat.",
     "Serve hot over cooked rice."]

  /**
   * The dialog's default and the saved page's default are the same recipe
   * except for the fourth step, whose accented letter the saved page stores
   * double-encoded.
   */
  lemma DefaultsDifferOnlyInFourthStep()
    ensures var a := DefaultRecipe();
            var b := FromMeal(SavedRecipesPage.DefaultRecipe());
            a.(instructions := []) == b.(instructions := [])
            && |a.instructions| == |b.instructions|
            && (forall i :: 0 <= i < |a.instructions| && i != 3 ==> a.instructions[i] == b.instructions[i])
            && a.instructions[3] != b.instructions[3]
  {
    SameDefaultIngredients();
    DefaultStepsDifferOnlyInFourth();
  }

  /** Both defaults list the same ingredients. */
  lemma SameDefaultIngredients()
    ensures DefaultIngredients == SavedRecipesPage.DefaultIngredients
  {
  }

  /** The two defaults' steps agree except the fourth, which differs in its accented letter. */
  lemma DefaultStepsDifferOnlyInFourth()
    ensures |DefaultSteps| == |SavedRecipesPage.DefaultSteps|
    ensures forall i :: 0 <= i < |DefaultSteps| && i != 3 ==> DefaultSteps[i] == SavedRecipesPage.DefaultSteps[i]
    ensures DefaultSteps[3][27] == '\U{E9}' && SavedRecipesPage.DefaultSteps[3][27] == '\U{C3}'
  {
  }

  /** `handleIncreaseServings`. */
  function Increase(servings: int): (n: int)
    ensures n == servings + 1
  {
    servings + 1
  }

  /** `handleDecreaseServings`: lower by one only above one serving. */
  function Decrease(servings: int): (n: int)
    ensures servings > 1 ==> n == servings - 1
    ensures servings <= 1 ==> n == servings
  {
    if servings > 1 then servings - 1 else servings
  }

  /** The minus button is disabled at one serving or fewer; it is enabled exactly when a click would change the count. */
  function DecreaseEnabled(servings: int): (b: bool)
    ensures b <==> Decrease(servings) != servings
    ensures b ==> servings >= 2
  {
    !(servings <= 1)
  }

  /** A click on the minus button changes the count exactly when the button is enabled. */
  lemma DecreaseOnlyWhenEnabled(servings: int)
    ensures Decrease(servings) != servings <==> DecreaseEnabled(servings)
    ensures DecreaseEnabled(servings) ==> Increase(Decrease(servings)) == servings
  {
  }

  /** A plus click is undone by a minus click. */
  lemma IncreaseThenDecrease(servings: int)
    requires servings >= 1
    ensures Decrease(Increase(servings)) == servings
  {
  }

  /** The counter's buttons. */
  datatype ServingsClick = More | Fewer

  /** The count after a sequence of clicks. */
  function ApplyClicks(servings: int, clicks: seq<ServingsClick>): int
    decreases |clicks|
  {
    if |clicks| == 0 then servings
    else ApplyClicks(if clicks[0] == More then Increase(servings) else Decrease(servings), clicks[1..])
  }

  /**
   * Starting from the recipe's count of at least one (the counter starts at
   * `recipe.servings`), no sequence of clicks brings the count below one;
   * starting below one, it never goes lower than where it started.
   */
  lemma {:induction false} ServingsStayPositive(servings: int, clicks: seq<ServingsClick>)
    ensures servings >= 1 ==> ApplyClicks(servings, clicks) >= 1
    ensures ApplyClicks(servings, clicks) >= (if servings < 1 then servings else 1)
    decreases |clicks|
  {
    if |clicks| > 0 {
      ServingsStayPositive(if clicks[0] == More then Increase(servings) else Decrease(servings), clicks[1..]);
    }
  }

  /** The heart indicator: is the recipe among the session's saved identities? */
  function IsSaved(savedMeals: seq<string>, recipeId: string): (b: bool)
    ensures b <==> exists i :: 0 <= i < |savedMeals| && savedMeals[i] == recipeId
  {
    recipeId in savedMeals
  }

  /** The dialog after the save button: the session, the sign-in dialog, and the indicator. */
  datatype Clicked = Clicked(session: MealContext.Session, authShown: bool, indicator: bool)

  /**
   * `handleSaveRecipe`: a visitor only sees the sign-in dialog and the
   * indicator stays as it was; a signed-in user toggles through the store,
   * and the indicator then shows the flag the service answered. An
   * exception (`None`) is swallowed and changes nothing.
   */
  function SaveRecipe(s: MealContext.Session, signedIn: bool, recipe: Recipe, answer: Option<bool>): (c: Clicked)
    ensures !signedIn ==> c.session == s && c.authShown && c.indicator == IsSaved(s.savedMeals, recipe.id)
    ensures signedIn ==> !c.authShown
    ensures signedIn && answer.Some? ==> c.indicator == answer.value
    ensures signedIn && answer.None? ==> c.session == s && c.indicator == IsSaved(s.savedMeals, recipe.id)
  {
    var g := SavedRecipesPage.HandleSaveMeal(s, signedIn, recipe.id, answer);
    Clicked(g.session, g.authShown, IsSaved(g.session.savedMeals, recipe.id))
  }

  /** Across consecutive signed-in saves the indicator always shows the most recent answer. */
  lemma IndicatorFollowsLastAnswer(s: MealContext.Session, recipe: Recipe, first: bool, second: bool)
    ensures var c1 := SaveRecipe(s, true, recipe, Some(first));
            var c2 := SaveRecipe(c1.session, true, recipe, Some(second));
            c2.indicator == second && c1.indicator == first
  {
  }
}
