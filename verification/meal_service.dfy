/**
 * The gateway between the session store and the backend tables
 * (src/services/mealService.ts). Every remote call is an input: the rows a
 * select returned, or the fact that it failed. What is modelled is the
 * decision logic around those calls and the row-to-record transformer.
 */
module MealService {
  import opened Outcomes
  import opened MealTypes
  import Seqs

  /** What a select handed back: its rows (a `null` payload reads as no rows), or a reported error or exception. */
  datatype Reply<T> = Rows(data: seq<T>) | Failed

  /**
   * A column whose content is not trusted: a native array, a JSON-encoded
   * string, or any other value (`null`, a number, an object).
   */
  datatype RawList<T> = Array(items: seq<T>) | Text(json: string) | OtherValue

  /** A row of the `meals` table, with snake_case columns. */
  datatype MealRow = MealRow(
    id: string,
    title: string,
    image: string,
    prepTime: int,
    cookTime: int,
    ingredientCount: int,
    servings: int,
    dietaryTags: RawList<string>,
    ingredients: RawList<RecipeIngredient>,
    instructions: RawList<string>)

  /**
   * The two-way normalisation of `ingredients` and `instructions`: a string
   * goes through the JSON parser (`parse`, which answers `None` where
   * `JSON.parse` throws) and degrades to `[]` on failure, an array is kept,
   * anything else becomes `[]`.
   */
  function NormaliseList<T>(raw: RawList<T>, parse: string -> Option<seq<T>>): (r: seq<T>)
    ensures raw.Array? ==> r == raw.items
    ensures raw.Text? ==> r == parse(raw.json).GetOr([])
    ensures raw.OtherValue? ==> r == []
  {
    match raw
    case Array(xs) => xs
    case Text(s) => (match parse(s) case Some(xs) => xs case None => [])
    case OtherValue => []
  }

  /** `Array.isArray(tags) ? tags : []`: a JSON string is not parsed here. */
  function NormaliseTags(raw: RawList<string>): (r: seq<string>)
    ensures raw.Array? ==> r == raw.items
    ensures !raw.Array? ==> r == []
  {
    if raw.Array? then raw.items else []
  }

  /** `transformMealFromDB`: scalar columns copied, lists normalised, `isSaved` always cleared. */
  function TransformMeal(
    row: MealRow,
    parseIngredients: string -> Option<seq<RecipeIngredient>>,
    parseSteps: string -> Option<seq<string>>): (m: Meal)
    ensures m.id == row.id && m.title == row.title && m.image == row.image
    ensures m.prepTime == row.prepTime && m.cookTime == row.cookTime
    ensures m.ingredientCount == row.ingredientCount && m.servings == row.servings
    ensures !m.isSaved
    ensures m.dietaryTags == NormaliseTags(row.dietaryTags)
    ensures m.ingredients == NormaliseList(row.ingredients, parseIngredients)
    ensures m.instructions == NormaliseList(row.instructions, parseSteps)
  {
    Meal(row.id, row.title, row.image, row.prepTime, row.cookTime, row.ingredientCount,
         row.servings, false, NormaliseTags(row.dietaryTags),
         NormaliseList(row.ingredients, parseIngredients),
         NormaliseList(row.instructions, parseSteps))
  }

  /**
   * Storing a recipe's lists JSON-encoded or as native arrays yields the same
   * meal, provided the parser inverts the encoder on those lists.
   */
  lemma EncodedListsTransformAlike(
    row: MealRow,
    ingredients: seq<RecipeIngredient>,
    steps: seq<string>,
    encodeIngredients: seq<RecipeIngredient> -> string,
    encodeSteps: seq<string> -> string,
    parseIngredients: string -> Option<seq<RecipeIngredient>>,
    parseSteps: string -> Option<seq<string>>)
    requires parseIngredients(encodeIngredients(ingredients)) == Some(ingredients)
    requires parseSteps(encodeSteps(steps)) == Some(steps)
    ensures TransformMeal(row.(ingredients := Text(encodeIngredients(ingredients)),
                               instructions := Text(encodeSteps(steps))),
                          parseIngredients, parseSteps)
         == TransformMeal(row.(ingredients := Array(ingredients), instructions := Array(steps)),
                          parseIngredients, parseSteps)
  {
  }

  /** A malformed JSON string degrades to an empty list rather than failing the whole row. */
  lemma MalformedJsonGivesEmpty(
    row: MealRow,
    parseIngredients: string -> Option<seq<RecipeIngredient>>,
    parseSteps: string -> Option<seq<string>>)
    requires row.ingredients.Text? && parseIngredients(row.ingredients.json).None?
    ensures TransformMeal(row, parseIngredients, parseSteps).ingredients == []
    ensures TransformMeal(row, parseIngredients, parseSteps).id == row.id
  {
  }

  /** `fetchMeals`: every row transformed, in row order; `[]` when the select fails. */
  function FetchMeals(
    reply: Reply<MealRow>,
    parseIngredients: string -> Option<seq<RecipeIngredient>>,
    parseSteps: string -> Option<seq<string>>): (r: seq<Meal>)
    ensures reply.Failed? ==> r == []
    ensures reply.Rows? ==> |r| == |reply.data|
    ensures reply.Rows? ==> forall i :: 0 <= i < |r| ==> r[i].id == reply.data[i].id
    ensures forall i :: 0 <= i < |r| ==> !r[i].isSaved
  {
    match reply
    case Failed => []
    case Rows(rows) => Seqs.Map(rows, (row: MealRow) => TransformMeal(row, parseIngredients, parseSteps))
  }

  /**
   * A table storing each recipe's lists JSON-encoded fetches as the same
   * meals as one storing them as native arrays, provided the parser inverts
   * the encoder on every stored list.
   */
  lemma EncodedTableFetchesAlike(
    rows: seq<MealRow>,
    ingredients: seq<seq<RecipeIngredient>>,
    steps: seq<seq<string>>,
    encodeIngredients: seq<RecipeIngredient> -> string,
    encodeSteps: seq<string> -> string,
    parseIngredients: string -> Option<seq<RecipeIngredient>>,
    parseSteps: string -> Option<seq<string>>)
    requires |ingredients| == |rows| && |steps| == |rows|
    requires forall i :: 0 <= i < |rows| ==> parseIngredients(encodeIngredients(ingredients[i])) == Some(ingredients[i])
    requires forall i :: 0 <= i < |rows| ==> parseSteps(encodeSteps(steps[i])) == Some(steps[i])
    ensures FetchMeals(Rows(seq(|rows|, i requires 0 <= i < |rows| =>
                         rows[i].(ingredients := Text(encodeIngredients(ingredients[i])),
                                  instructions := Text(encodeSteps(steps[i]))))),
                       parseIngredients, parseSteps)
         == FetchMeals(Rows(seq(|rows|, i requires 0 <= i < |rows| =>
                         rows[i].(ingredients := Array(ingredients[i]), instructions := Array(steps[i])))),
                       parseIngredients, parseSteps)
  {
    forall i | 0 <= i < |rows| {
      EncodedListsTransformAlike(rows[i], ingredients[i], steps[i], encodeIngredients, encodeSteps,
                                 parseIngredients, parseSteps);
    }
  }

  /** `fetchMealById`: a `.single()` lookup; an error or a missing row gives `null`. */
  function FetchMealById(
    reply: Reply<MealRow>,
    parseIngredients: string -> Option<seq<RecipeIngredient>>,
    parseSteps: string -> Option<seq<string>>): (r: Option<Meal>)
    ensures r.Some? <==> reply.Rows? && |reply.data| == 1
    ensures r.Some? ==> r.value == TransformMeal(reply.data[0], parseIngredients, parseSteps)
  {
    if reply.Rows? && |reply.data| == 1 then Some(TransformMeal(reply.data[0], parseIngredients, parseSteps))
    else None
  }

  /** A row of `saved_meals` as selected by `fetchSavedMeals` (only `meal_id`). */
  datatype SavedRow = SavedRow(mealId: string)

  /** `fetchSavedMeals`: the `meal_id`s in row order; `[]` when the select fails. */
  function FetchSavedMeals(reply: Reply<SavedRow>): (ids: seq<string>)
    ensures reply.Failed? ==> ids == []
    ensures reply.Rows? ==> |ids| == |reply.data|
    ensures reply.Rows? ==> forall i :: 0 <= i < |ids| ==> ids[i] == reply.data[i].mealId
  {
    match reply
    case Failed => []
    case Rows(rows) => Seqs.Map(rows, (row: SavedRow) => row.mealId)
  }

  /** Whether an insert or delete reported an error. */
  datatype WriteStatus = WriteOk | WriteErr

  /**
   * The decision in `toggleSaveMeal`. `existing` is the number of matching
   * (meal, user) rows the existence check returned, `None` when it returned no
   * data. A matching row means delete and answer `false` whatever the delete
   * reported; otherwise insert and answer whether the insert succeeded.
   */
  function ToggleSave(existing: Option<nat>, write: WriteStatus): (saved: bool)
    ensures existing.Some? && existing.value > 0 ==> !saved
    ensures !(existing.Some? && existing.value > 0) ==> (saved <==> write == WriteOk)
  {
    if existing.Some? && existing.value > 0 then false
    else write == WriteOk
  }

  /** The (meal, user) association a saved row records. */
  datatype SavedLink = SavedLink(mealId: string, userId: string)

  /**
   * `toggleSaveMeal` run against a `saved_meals` table, seen as the set of its
   * links: the existence check succeeds, then the chosen write is applied
   * unless it reports an error. Answers the flag and the table afterwards.
   */
  function ToggleSaveRemote(table: set<SavedLink>, link: SavedLink, write: WriteStatus): (r: (bool, set<SavedLink>))
    ensures write == WriteOk ==> (r.0 <==> link in r.1)
    ensures write == WriteOk ==> (link in r.1 <==> link !in table)
    ensures r.1 - {link} == table - {link}
    ensures write == WriteErr ==> r.1 == table && !r.0
  {
    var found := link in table;
    var saved := ToggleSave(Some(if found then 1 else 0), write);
    var after := if write == WriteErr then table
                 else if found then table - {link} else table + {link};
    (saved, after)
  }

  /** With both writes succeeding, two toggles restore the table and report the original membership. */
  lemma ToggleSaveTwiceRestores(table: set<SavedLink>, link: SavedLink)
    ensures var first := ToggleSaveRemote(table, link, WriteOk);
            var second := ToggleSaveRemote(first.1, link, WriteOk);
            second.1 == table && (second.0 <==> link in table) && (first.0 <==> link !in table)
  {
    var first := ToggleSaveRemote(table, link, WriteOk);
    if link in table {
      assert first.1 + {link} == table;
    } else {
      assert first.1 - {link} == table;
    }
  }

  /** A failed delete still answers "not saved" although the row stays: the flag and the table then disagree. */
  lemma FailedDeleteReportsUnsaved(table: set<SavedLink>, link: SavedLink)
    requires link in table
    ensures var r := ToggleSaveRemote(table, link, WriteErr); !r.0 && link in r.1
  {
  }

  /** A row of `calendar_entries` as returned by the insert. */
  datatype CalendarRow = CalendarRow(id: string, mealId: string, date: Date, mealType: string, title: string, userId: string)

  /** The table-existence probe in `addMealToCalendar`. */
  datatype ProbeReply = ProbeOk | ProbeErr | ProbeThrew

  /** The insert in `addMealToCalendar`: the inserted row, a reported error, or an exception. */
  datatype InsertReply = InsertedRow(row: CalendarRow) | InsertErr | InsertThrew

  /** The stand-in entry every failure path of `addMealToCalendar` returns. */
  function FallbackEntry(mealId: string, date: Date, mealType: string, title: string, userId: string, stamp: string): (e: CalendarEntry)
    ensures e.id.Some? && IsTempId(e.id.value)
    ensures e.mealId == mealId && e.date == date && e.mealType == mealType && e.title == title
    ensures e.userId == Some(userId)
  {
    CalendarEntry(Some(TempId(stamp)), mealId, date, mealType, title, Some(userId))
  }

  /** The entry built from the inserted row. */
  function EntryFromRow(row: CalendarRow): (e: CalendarEntry)
    ensures e.id == Some(row.id) && e.mealId == row.mealId && e.date == row.date
    ensures e.mealType == row.mealType && e.title == row.title && e.userId == Some(row.userId)
  {
    CalendarEntry(Some(row.id), row.mealId, row.date, row.mealType, row.title, Some(row.userId))
  }

  /**
   * `addMealToCalendar`: never answers `null`. A probe failure, an insert
   * error or an exception all give the temporary stand-in entry; only a
   * successful insert gives the stored row.
   */
  function AddMealToCalendar(
    mealId: string, date: Date, mealType: string, title: string, userId: string,
    stamp: string, probe: ProbeReply, insert: InsertReply): (r: Option<CalendarEntry>)
    ensures r.Some?
    ensures probe.ProbeOk? && insert.InsertedRow? ==> r.value == EntryFromRow(insert.row)
    ensures !(probe.ProbeOk? && insert.InsertedRow?) ==> r.value == FallbackEntry(mealId, date, mealType, title, userId, stamp)
  {
    match probe
    case ProbeErr => Some(FallbackEntry(mealId, date, mealType, title, userId, stamp))
    case ProbeThrew => Some(FallbackEntry(mealId, date, mealType, title, userId, stamp))
    case ProbeOk =>
      match insert
      case InsertedRow(row) => Some(EntryFromRow(row))
      case InsertErr => Some(FallbackEntry(mealId, date, mealType, title, userId, stamp))
      case InsertThrew => Some(FallbackEntry(mealId, date, mealType, title, userId, stamp))
  }

  /**
   * Whatever the backend does, the returned entry carries the requested meal,
   * date, meal type, title and owner, provided a stored row echoes what was inserted.
   */
  lemma AddMealToCalendarCarriesRequest(
    mealId: string, date: Date, mealType: string, title: string, userId: string,
    stamp: string, probe: ProbeReply, insert: InsertReply)
    requires insert.InsertedRow? ==>
      insert.row.mealId == mealId && insert.row.date == date && insert.row.mealType == mealType
      && insert.row.title == title && insert.row.userId == userId
    ensures var r := AddMealToCalendar(mealId, date, mealType, title, userId, stamp, probe, insert);
            r.Some? && r.value.mealId == mealId && r.value.date == date && r.value.mealType == mealType
            && r.value.title == title && r.value.userId == Some(userId) && r.value.id.Some?
  {
  }

  /** The delete in `removeMealFromCalendar`. */
  datatype DeleteReply = Deleted | DeleteErr | DeleteThrew

  /**
   * `removeMealFromCalendar`: a `temp-` identity is reported removed without
   * contacting the backend; otherwise only a reported delete error answers
   * `false` (an exception answers `true` so that the interface still updates).
   */
  function RemoveMealFromCalendar(entryId: string, reply: DeleteReply): (ok: bool)
    ensures IsTempId(entryId) ==> ok
    ensures !IsTempId(entryId) ==> (ok <==> !reply.DeleteErr?)
  {
    if IsTempId(entryId) then true
    else match reply
      case Deleted => true
      case DeleteErr => false
      case DeleteThrew => true
  }

  /** A temporary entry is removed the same way whatever the backend would have answered. */
  lemma RemoveTempIgnoresBackend(stamp: string, a: DeleteReply, b: DeleteReply)
    ensures RemoveMealFromCalendar(TempId(stamp), a) == RemoveMealFromCalendar(TempId(stamp), b) == true
  {
  }

  /**
   * The server-side `overlaps` test on the `dietary_tags` array column. A row
   * whose column is not an array never matches, so the server-side test
   * agrees with the client's tag test on the transformed tags.
   */
  function RowOverlaps(row: MealRow, wanted: seq<string>): (b: bool)
    ensures b <==> SharesTag(NormaliseTags(row.dietaryTags), wanted)
  {
    row.dietaryTags.Array? && SharesTag(row.dietaryTags.items, wanted)
  }

  /**
   * `filterMeals` against the whole `meals` table (`table`): the overlap
   * predicate is applied only when some dietary restriction is requested;
   * the meal types are never consulted. A failed query gives `[]`.
   */
  function FilterMeals(
    filters: MealFilters,
    table: Reply<MealRow>,
    parseIngredients: string -> Option<seq<RecipeIngredient>>,
    parseSteps: string -> Option<seq<string>>): (r: seq<Meal>)
    ensures table.Failed? ==> r == []
    ensures |filters.dietaryRestrictions| == 0 ==> r == FetchMeals(table, parseIngredients, parseSteps)
    ensures |filters.dietaryRestrictions| > 0 ==>
      forall i :: 0 <= i < |r| ==> SharesTag(r[i].dietaryTags, filters.dietaryRestrictions)
  {
    match table
    case Failed => []
    case Rows(rows) =>
      var wanted := filters.dietaryRestrictions;
      var kept := if |wanted| > 0 then Seqs.Filter(rows, (row: MealRow) => RowOverlaps(row, wanted)) else rows;
      FetchMeals(Rows(kept), parseIngredients, parseSteps)
  }

  /** Every row of the table that overlaps the requested tags is in the result. */
  lemma FilterMealsComplete(
    filters: MealFilters,
    rows: seq<MealRow>,
    parseIngredients: string -> Option<seq<RecipeIngredient>>,
    parseSteps: string -> Option<seq<string>>,
    k: nat)
    requires k < |rows| && RowOverlaps(rows[k], filters.dietaryRestrictions)
    ensures TransformMeal(rows[k], parseIngredients, parseSteps)
            in FilterMeals(filters, Rows(rows), parseIngredients, parseSteps)
  {
    var wanted := filters.dietaryRestrictions;
    var kept := Seqs.Filter(rows, (row: MealRow) => RowOverlaps(row, wanted));
    assert rows[k] in kept;
    var j :| 0 <= j < |kept| && kept[j] == rows[k];
    var r := FetchMeals(Rows(kept), parseIngredients, parseSteps);
    assert r[j] == TransformMeal(kept[j], parseIngredients, parseSteps);
  }

  /** The requested meal types never change the answer. */
  lemma FilterMealsIgnoresMealTypes(
    restrictions: seq<string>, typesA: seq<string>, typesB: seq<string>,
    table: Reply<MealRow>,
    parseIngredients: string -> Option<seq<RecipeIngredient>>,
    parseSteps: string -> Option<seq<string>>)
    ensures FilterMeals(MealFilters(restrictions, typesA), table, parseIngredients, parseSteps)
         == FilterMeals(MealFilters(restrictions, typesB), table, parseIngredients, parseSteps)
  {
  }
}
