# MealPrep core in Dafny

This project models the local, sequential logic of the MealPrep meal-planning
app: a React single-page app whose data lives in a hosted Postgres backend
reached through a client SDK. Every remote call is replaced by a parameter
holding its outcome. The model covers:

- the session store (`MealContext`): the initial load and its demo fallbacks,
  the saved-flag toggle, calendar add and remove, and the visitor filter;
- the service layer (`mealService`): row-to-meal normalisation, the saved
  toggle against the saved-meals table, the calendar add that always yields an
  entry, the `temp-` short cut on calendar removal, and the filter criteria;
- the pantry inventory handlers;
- the meal grid's pagination, the filter bar, the two preference editors, the
  saved-recipes page and the recipe dialog;
- the seed wrapper's `.env` parser and variable check, and the client
  configuration predicate.

Modules follow the app's source files. `Outcomes` holds `Option` and JavaScript string
truthiness, `Seqs` the shared list helpers (filter, map, remove-all,
toggle-membership), `MealTypes` the records of `src/types/meal.ts`. Each handler
is one pure transition over immutable records. Generated identities
(`` `temp-${Date.now()}` ``) are `TempId(stamp)` for an arbitrary `stamp`.
`JSON.parse` is an oracle `string -> Option<seq<T>>`.

The two inventory components (`InventoryPage.tsx` and
`InventoryTabContent.tsx`) hold the same handlers and seed lists, so one module,
`Inventory`, models both. Its table rows cite one file or the other.

The model follows the code, including these behaviours a caller may not
expect:

- the authenticated saved toggle is not idempotent: a failed delete still
  reports "not saved" (`MealService.FailedDeleteReportsUnsaved`);
- the demo identity `meal-2` is flagged on fetched meals too, and the saved list
  is `["meal-2"]` only when the meal fetch came back empty. A signed-in user with
  an empty database is therefore shown `meal-2` as saved while no meal carries
  the flag (`MealContext.LoadSignedInEmptyDisagrees`);
- the saved-recipes page and the recipe dialog carry two copies of the default
  recipe. They differ in one instruction, whose accented letter one copy stores
  double-encoded (`RecipeDetailModal.DefaultsDifferOnlyInFourthStep`).

## Model

| member | source | states |
|---|---|---|
| MealTypes.TempId | src/context/MealContext.tsx:281 | a generated identity starts with `temp-` and the rest is the stamp |
| MealTypes.SharesTag | src/context/MealContext.tsx:337-341 | a meal shares a tag with the restrictions iff some restriction is among its tags: the test is symmetric, as the server's `overlaps` is |
| MealContext.DemoMeals | src/context/MealContext.tsx:15-110 | the seed list is `meal-1`, `meal-2`, `meal-3`, and exactly `meal-2` is flagged saved |
| MealContext.MealsToUse | src/context/MealContext.tsx:158-161 | a non-empty fetch is used as is; an empty fetch is replaced by the seed list |
| MealContext.WithSavedFlags | src/context/MealContext.tsx:176-179 | same length; each meal changes only its saved flag, which the predicate decides from the id |
| MealContext.LoadInitialData | src/context/MealContext.tsx:151-203 | signed in: flags by membership in the fetched saved ids, saved list is the fetched one, else `["meal-2"]` only after an empty meal fetch. Visitor: flag only `meal-2`, no calendar. Exception: seed meals, `["meal-2"]`, no calendar |
| MealContext.LoadSignedInWithOneSavedMeal | src/context/MealContext.tsx:163-181 | a user whose only saved id is `meal-2` sees exactly that meal flagged, and flags agree with the saved list |
| MealContext.LoadIsConsistent | src/context/MealContext.tsx:159-203 | flags agree with the saved list after an exception, after a visitor's empty fetch, and for a signed-in user with saved ids or fetched meals |
| MealContext.LoadSignedInEmptyDisagrees | src/context/MealContext.tsx:168-179 | with both fetches empty, the saved list is `["meal-2"]` while `meal-2` is not flagged |
| MealContext.DemoToggleSave | src/context/MealContext.tsx:239-252 | only meals with the id flip their flag and the length is kept; the id is removed (every copy) if present, else appended |
| MealContext.DemoToggleTwice | src/context/MealContext.tsx:240-252 | two visitor toggles restore every meal and the membership, and the exact saved list when the id was absent |
| MealContext.DemoTogglePreservesConsistency | src/context/MealContext.tsx:240-252 | the visitor toggle keeps flags and saved list in agreement |
| MealContext.CommitSaved | src/context/MealContext.tsx:221-234 | after committing flag `b`, the id is saved iff `b`; no duplicate is appended; other ids stay; matching meals get flag `b`, others unchanged |
| MealContext.CommitSavedNoDup | src/context/MealContext.tsx:227-234 | the commit keeps a duplicate-free saved list duplicate-free |
| MealContext.CommitSavedPreservesConsistency | src/context/MealContext.tsx:221-234 | the commit keeps flags and saved list in agreement |
| MealContext.ToggleSaveMeal | src/context/MealContext.tsx:213-254 | signed in: commit the service's flag, or change nothing when it threw; visitor: the local toggle |
| MealContext.SignedInToggleTwice | src/context/MealContext.tsx:214-234 | two signed-in toggles with successful writes restore the table, and the session's membership ends as the table's original membership |
| MealContext.AddToCalendar | src/context/MealContext.tsx:257-289 | visitor: exactly one `temp-` entry with the given fields is appended and earlier entries are kept; signed in: the service's entry is appended only when it is non-null |
| MealContext.SignedInAddAlwaysAppends | src/context/MealContext.tsx:263-274 | through the service, a signed-in add always appends exactly one entry with the requested meal, date, type and title |
| MealContext.EntriesWithout | src/context/MealContext.tsx:297-299 | exactly the entries whose id differs from the given one remain |
| MealContext.RemoveFromCalendar | src/context/MealContext.tsx:292-314 | entries with the id are removed for a visitor, or on a `true` answer or an exception; a `false` answer changes nothing |
| MealContext.EntriesWithoutConcat | src/context/MealContext.tsx:310-312 | removal keeps the relative order of the remaining entries |
| MealContext.DemoAddThenRemove | src/context/MealContext.tsx:278-313 | a visitor's add followed by removing its fresh id restores the session |
| MealContext.SignedInRemoveOfTempEntry | src/context/MealContext.tsx:293-300 | a signed-in removal of a `temp-` entry always takes effect, whatever the backend would answer |
| MealContext.DemoFilter | src/context/MealContext.tsx:327-345 | no restrictions: all meals in order; otherwise every kept meal comes from the list and shares a tag, and every meal sharing a tag is kept; meal types never exclude |
| MealContext.DemoFilterConcat | src/context/MealContext.tsx:334-344 | the filter keeps order: filtering a joined list joins the filtered parts |
| MealContext.DemoFilterSingle | src/context/MealContext.tsx:334-344 | one meal is kept iff no restriction is requested or it shares a tag; with the previous row, the result is the order-preserving subsequence of passing meals |
| MealContext.DemoFilterAgreesWithService | src/context/MealContext.tsx:335-345 | the visitor filter over fetched meals equals the service's filter over the same table |
| MealContext.GetFilteredMeals | src/context/MealContext.tsx:317-347 | signed in: the service's answer, or `[]` after an exception; visitor: the local filter |
| MealService.NormaliseList | src/services/mealService.ts:265-290 | an array is kept, a string is parsed (empty on parse failure), anything else is empty |
| MealService.NormaliseTags | src/services/mealService.ts:301 | the tags are the array when there is one, else empty |
| MealService.TransformMeal | src/services/mealService.ts:264-305 | fields are copied unchanged, `isSaved` is false, and the three lists are normalised |
| MealService.EncodedListsTransformAlike | src/services/mealService.ts:265-290 | a row storing its lists as JSON text gives the same meal as one storing arrays, when parsing inverts encoding |
| MealService.EncodedTableFetchesAlike | src/services/mealService.ts:5-23 | a table storing every recipe's lists as JSON text fetches as the same meals as one storing arrays, when parsing inverts encoding |
| MealService.MalformedJsonGivesEmpty | src/services/mealService.ts:268-274 | unparseable ingredient text gives an empty ingredient list and keeps the meal |
| MealService.FetchMeals | src/services/mealService.ts:5-23 | an error gives `[]`; otherwise one meal per row in row order, none flagged saved |
| MealService.FetchMealById | src/services/mealService.ts:26-39 | a meal exactly when the query yields a single row, and then that row transformed |
| MealService.FetchSavedMeals | src/services/mealService.ts:81-100 | an error gives `[]`; otherwise the rows' meal ids in row order |
| MealService.ToggleSave | src/services/mealService.ts:53-77 | an existing link always answers false; otherwise the answer is whether the insert succeeded |
| MealService.ToggleSaveRemote | src/services/mealService.ts:42-78 | a successful write flips the link's membership and answers the new membership; other links are untouched; a failed write changes nothing and answers false |
| MealService.ToggleSaveTwiceRestores | src/services/mealService.ts:53-77 | two successful toggles restore the table; the answers are the flipped and then the original membership |
| MealService.FailedDeleteReportsUnsaved | src/services/mealService.ts:55-65 | a failed delete leaves the link stored but answers "not saved" |
| MealService.FallbackEntry | src/services/mealService.ts:165-176 | the mock entry has a `temp-` id and carries the requested meal, date, type, title and user |
| MealService.EntryFromRow | src/services/mealService.ts:157-164 | the stored row's fields become the entry's fields |
| MealService.AddMealToCalendar | src/services/mealService.ts:103-177 | never null: the stored row's entry when probe and insert succeed, else the `temp-` fallback |
| MealService.AddMealToCalendarCarriesRequest | src/services/mealService.ts:117-176 | on every path the entry carries the requested fields and has an id |
| MealService.RemoveMealFromCalendar | src/services/mealService.ts:180-204 | a `temp-` id succeeds without a call; otherwise false exactly on a reported error, true on success or exception |
| MealService.RemoveTempIgnoresBackend | src/services/mealService.ts:185-187 | the answer for a `temp-` id does not depend on the backend |
| MealService.FilterMeals | src/services/mealService.ts:238-261 | an error gives `[]`; no restrictions gives every meal; otherwise every result shares a tag |
| MealService.FilterMealsComplete | src/services/mealService.ts:242-245 | every row overlapping the restrictions appears in the result |
| MealService.FilterMealsIgnoresMealTypes | src/services/mealService.ts:247-251 | the result does not depend on the meal types |
| MealService.RowOverlaps | src/services/mealService.ts:242-245 | the server's overlap test on a row agrees with the client's tag test on the row's normalised tags |
| Inventory.DemoSeed | src/components/inventory/InventoryPage.tsx:50-70 | the visitor list is three fixed items with ids 1, 2, 3 and no negative quantity |
| Inventory.FallbackSeed | src/components/inventory/InventoryPage.tsx:111-124 | the fetch-failure list is the first two demo items |
| Inventory.LoadItems | src/components/inventory/InventoryPage.tsx:45-124 | visitor: the demo list; signed in: the fetched rows, or the two-item fallback on failure |
| Inventory.LocalItem | src/components/inventory/InventoryPage.tsx:164-181 | the local item has a `temp-` id and copies name, quantity, unit and expiry text from the form |
| Inventory.AddItem | src/components/inventory/InventoryPage.tsx:130-196 | an empty name changes nothing; otherwise the local item is appended for a visitor or a failed insert, the first returned row after a successful insert, nothing when the insert returned no row; the form is blanked and the dialog closed |
| Inventory.RemoveItem | src/components/inventory/InventoryPage.tsx:214-215 | exactly the items with a different id remain |
| Inventory.RemoveItemConcat | src/components/inventory/InventoryTabContent.tsx:219-220 | removal keeps the relative order of the remaining items |
| Inventory.AddThenRemoveRestores | src/components/inventory/InventoryTabContent.tsx:135-224 | removing a just-added local item's fresh id restores the list |
| Inventory.UpdateQuantity | src/components/inventory/InventoryPage.tsx:221-251 | a negative quantity changes nothing; otherwise only matching items' quantity changes and the length is kept |
| Inventory.UpdateKeepsNonNegative | src/components/inventory/InventoryTabContent.tsx:227 | an update never makes a quantity negative |
| Inventory.DecrementStaysNonNegative | src/components/inventory/InventoryPage.tsx:320 | an enabled minus click lowers that item by one and keeps all quantities non-negative; a click at zero would change nothing |
| Inventory.DecrementEnabled | src/components/inventory/InventoryPage.tsx:320 | an item's minus button is enabled iff a click would change the list |
| Inventory.LoadedItemsNonNegative | src/components/inventory/InventoryTabContent.tsx:116-129 | every loaded list is free of negative quantities when the fetched rows are |
| MealGrid.TotalPages | src/components/meal/MealGrid.tsx:117 | the page count is the least count whose pages hold every meal |
| MealGrid.Slice | src/components/meal/MealGrid.tsx:122 | in-range bounds give the exact sub-list; a start past the end gives nothing |
| MealGrid.Page | src/components/meal/MealGrid.tsx:120-122 | a page holds at most `itemsPerPage` meals; pages up to the count are non-empty, later ones empty |
| MealGrid.PagesUpToIsPrefix | src/components/meal/MealGrid.tsx:120-122 | the first `k` pages together are the first `k * itemsPerPage` meals |
| MealGrid.PagesCoverMeals | src/components/meal/MealGrid.tsx:120-122 | all pages laid end to end are exactly the meal list |
| MealGrid.NextPage | src/components/meal/MealGrid.tsx:125-129 | advance only while a later page exists |
| MealGrid.PrevPage | src/components/meal/MealGrid.tsx:131-135 | go back only from a page after the first |
| MealGrid.NavigateStaysInRange | src/components/meal/MealGrid.tsx:114 | from page 1, any clicks keep `1 <= page <= max(1, totalPages)` |
| MealGrid.SinglePageShowsAll | src/components/meal/MealGrid.tsx:166 | without pagination controls the first page is the whole list |
| MealGrid.ShowsControls | src/components/meal/MealGrid.tsx:166 | the controls show iff "next" from the first page reaches a second page |
| MealGrid.DefaultGridHasTwoPages | src/components/meal/MealGrid.tsx:112 | nine meals at the default six per page make pages of six and three |
| FilterBar.DietaryChange | src/components/meal/FilterBar.tsx:37-52 | the value's membership flips, a new value goes last, other values stay; meal types are unchanged and reported alongside |
| FilterBar.MealTypeChange | src/components/meal/FilterBar.tsx:54-69 | the same for meal types, with the restrictions unchanged |
| FilterBar.ClearFilters | src/components/meal/FilterBar.tsx:71-81 | both lists become empty and two empty lists are reported |
| FilterBar.RemoveFilter | src/components/meal/FilterBar.tsx:83-89 | removal goes through the toggle of the matching list |
| FilterBar.AppliedCount | src/components/meal/FilterBar.tsx:145-147 | the count is zero exactly when both lists are empty and is at least each list's length |
| FilterBar.ChangeTwiceRestores | src/components/meal/FilterBar.tsx:39-41 | toggling an absent value twice restores the list |
| FilterBar.ChangesKeepWellFormed | src/components/meal/FilterBar.tsx:37-89 | toggles and clearing keep both lists duplicate-free |
| FilterBar.RemoveShownFilter | src/components/meal/FilterBar.tsx:83-89 | removing a shown value drops it, touches only its list, and lowers the count by one |
| FilterBar.ChangesMoveCount | src/components/meal/FilterBar.tsx:37-81 | on a duplicate-free bar each checkbox click moves the count by one, down for a selected value and up otherwise; clearing makes it zero |
| Preferences.SaveErrorText | src/components/profile/UserPreferences.tsx:144 | the message when non-empty, else "Failed to save preferences" |
| Preferences.ToggleSelection | src/components/profile/UserPreferences.tsx:84-94 | the item's membership flips, a new item goes last, other items keep their order |
| Preferences.ToggleSelectionTwice | src/components/auth/DietaryPreferencesForm.tsx:69-73 | toggling an absent item twice restores the list exactly |
| Preferences.ToggleRemovesEveryCopy | src/components/auth/DietaryPreferencesForm.tsx:69-73 | toggling a present item removes every copy of it and keeps the other items in order |
| UserPreferences.ApplyFetch | src/components/profile/UserPreferences.tsx:54-82 | errors other than "no row" and exceptions change nothing; a row sets the id and the lists, null lists read as empty |
| UserPreferences.SaveRequest | src/components/profile/UserPreferences.tsx:104-123 | an update of the known row iff the id is non-empty, else an insert, with the current selection |
| UserPreferences.HandleSave | src/components/profile/UserPreferences.tsx:96-146 | a failure shows the message and clears success; a success after an insert takes the looked-up id |
| UserPreferences.InsertThenUpdate | src/components/profile/UserPreferences.tsx:132-141 | after a successful first insert, the next save updates the looked-up row |
| UserPreferences.MissingRowIsNotAnError | src/components/profile/UserPreferences.tsx:63-66 | the "no row" code leaves the editor empty and shows no error |
| UserPreferences.NullColumnsLoadEmpty | src/components/profile/UserPreferences.tsx:70-72 | null tag columns load as empty lists |
| UserPreferences.FetchedRowDecidesSave | src/components/profile/UserPreferences.tsx:68-72 | after loading a row, the next save updates that row with the loaded lists when its id is non-empty, else inserts them |
| DietaryPreferencesForm.SubmitRequest | src/components/auth/DietaryPreferencesForm.tsx:82-87 | submitting always inserts the three selections for the user |
| DietaryPreferencesForm.HandleSubmit | src/components/auth/DietaryPreferencesForm.tsx:76-100 | completion happens iff the insert reported no error; otherwise the error text is shown |
| DietaryPreferencesForm.SubmitMatchesFirstSave | src/components/auth/DietaryPreferencesForm.tsx:82-87 | the submit equals the profile editor's first save and stays an insert after success |
| SavedRecipesPage.SavedList | src/components/saved/SavedRecipesPage.tsx:67-69 | exactly the session meals with a saved id, each marked saved and otherwise unchanged; empty when nothing is saved; never longer |
| SavedRecipesPage.SavedListConcat | src/components/saved/SavedRecipesPage.tsx:67-68 | the projection keeps the session's order |
| SavedRecipesPage.Find | src/components/saved/SavedRecipesPage.tsx:89 | the first meal with the id, or none exactly when no meal has it |
| SavedRecipesPage.DefaultRecipe | src/components/saved/SavedRecipesPage.tsx:28-60 | the fallback recipe has id "1", is marked saved, and has nine ingredients and eight steps |
| SavedRecipesPage.ShownRecipe | src/components/saved/SavedRecipesPage.tsx:81-104 | fetched details win; otherwise the matching saved-list meal, else the default recipe |
| SavedRecipesPage.MissingClickShowsDefault | src/components/saved/SavedRecipesPage.tsx:94-95 | a click on a meal missing from the list opens the default recipe, with id "1" |
| SavedRecipesPage.FailedFetchFallsBackLikeVisitor | src/components/saved/SavedRecipesPage.tsx:84-101 | a signed-in click whose fetch found nothing or threw shows what a visitor's click shows |
| SavedRecipesPage.HandleSaveMeal | src/components/saved/SavedRecipesPage.tsx:106-112 | a visitor only sees the sign-in dialog; a signed-in user's id ends saved iff the service answered true |
| SavedRecipesPage.UnsaveLeavesSavedList | src/components/saved/SavedRecipesPage.tsx:62-79 | after an unsave the meal is no longer on the page's list |
| SavedRecipesPage.SaveJoinsSavedList | src/components/saved/SavedRecipesPage.tsx:62-79 | after a save every session meal with that id is on the page's list |
| SavedRecipesPage.ConfirmAddToCalendar | src/components/saved/SavedRecipesPage.tsx:123-138 | the calendar changes only when a selected id is on the saved list, and then with that meal's title |
| SavedRecipesPage.ConfirmThenRemoveRestores | src/components/saved/SavedRecipesPage.tsx:123-138 | a visitor's confirm followed by removing the fresh `temp-` id restores the session |
| RecipeDetailModal.FromMeal | src/components/meal/RecipeDetailModal.tsx:33-43 | a meal handed to the dialog keeps its id, title, servings and lists |
| RecipeDetailModal.DefaultRecipe | src/components/meal/RecipeDetailModal.tsx:49-79 | the default recipe has id "1", four servings, nine ingredients and eight steps |
| RecipeDetailModal.DefaultsDifferOnlyInFourthStep | src/components/meal/RecipeDetailModal.tsx:73 | the two default recipes agree except in the fourth step's accented letter |
| RecipeDetailModal.Increase | src/components/meal/RecipeDetailModal.tsx:84-86 | the count goes up by exactly one, with no upper bound |
| RecipeDetailModal.Decrease | src/components/meal/RecipeDetailModal.tsx:88-92 | the count drops by one above one serving and is unchanged otherwise |
| RecipeDetailModal.DecreaseEnabled | src/components/meal/RecipeDetailModal.tsx:231 | the minus button is enabled iff a click would change the count, which needs at least two servings |
| RecipeDetailModal.DecreaseOnlyWhenEnabled | src/components/meal/RecipeDetailModal.tsx:231 | a minus click changes the count iff the button is enabled, and then undoes a plus click |
| RecipeDetailModal.IncreaseThenDecrease | src/components/meal/RecipeDetailModal.tsx:84-92 | a plus click followed by a minus click restores the count |
| RecipeDetailModal.ServingsStayPositive | src/components/meal/RecipeDetailModal.tsx:81 | from a start of at least one, no clicks bring the count below one; from below one it never drops |
| RecipeDetailModal.SaveRecipe | src/components/meal/RecipeDetailModal.tsx:107-121 | a visitor only sees the sign-in dialog and the indicator stays; signed in, the indicator shows the service's answer |
| RecipeDetailModal.IsSaved | src/components/meal/RecipeDetailModal.tsx:137 | the indicator is on iff some saved identity equals the recipe's |
| RecipeDetailModal.IndicatorFollowsLastAnswer | src/components/meal/RecipeDetailModal.tsx:137 | across consecutive saves the indicator shows the most recent answer |
| RunSeed.IndexOf | scripts/run-seed.js:17 | the first position of the character, none exactly when it is absent |
| RunSeed.SplitLines | scripts/run-seed.js:16 | at least one piece, none holding a newline, and joining them gives the text back |
| RunSeed.SplitJoinLines | scripts/run-seed.js:16 | splitting undoes joining of newline-free lines |
| RunSeed.TrimStart | scripts/run-seed.js:20 | a suffix of the text, starting with non-space, after only white space |
| RunSeed.TrimEnd | scripts/run-seed.js:20 | a prefix of the text, ending with non-space, before only white space |
| RunSeed.Trim | scripts/run-seed.js:20 | the piece between the leading and trailing white space |
| RunSeed.TrimIdempotent | scripts/run-seed.js:20 | trimming twice is trimming once |
| RunSeed.ParseLine | scripts/run-seed.js:17-20 | a matched key holds no `=`, a matched value no line terminator |
| RunSeed.ParseLineSplitsAtMatch | scripts/run-seed.js:17-20 | wherever `^([^=]+)=(.*)$` matches, the pair is the trimmed text on either side of the matched `=` |
| RunSeed.MatchedAtFirstEquals | scripts/run-seed.js:17 | a line that yields a pair was matched by the pattern at its first `=` |
| RunSeed.ParseLineMatchesRegex | scripts/run-seed.js:17 | a line yields a pair iff `^([^=]+)=(.*)$` matches it (its first `=` is not its first character and no line terminator follows) |
| RunSeed.BlankKeyIsEmpty | scripts/run-seed.js:17-20 | a line whose `=` follows only white space still matches and stores its trimmed value under the empty key |
| RunSeed.CarriageReturnLineIgnored | scripts/run-seed.js:17 | a line ending in a carriage return never matches |
| RunSeed.Put | scripts/run-seed.js:20 | the key maps to the new value, other keys keep theirs, a new key goes last, an existing key keeps its place; `__proto__` is not stored |
| RunSeed.Step | scripts/run-seed.js:17-21 | a non-matching line changes nothing; a matching one stores its pair, unless its key is `__proto__` |
| RunSeed.ParseEnv | scripts/run-seed.js:13-22 | the parsed object holds each key exactly once |
| RunSeed.ParseLinesConcat | scripts/run-seed.js:16-22 | reading two blocks of lines is reading one, then the other |
| RunSeed.LaterLineWins | scripts/run-seed.js:20 | the last matching line for a key decides its value; a last `__proto__` line changes nothing |
| RunSeed.CarriageReturnLinesAddNothing | scripts/run-seed.js:16-20 | a file with CRLF line endings yields no variables |
| RunSeed.MissingVar | scripts/run-seed.js:29-38 | none iff both required variables are present and non-empty; otherwise the first that is not |
| RunSeed.EmptyFileFailsOnUrl | scripts/run-seed.js:29-38 | an empty file fails the check on the URL |
| RunSeed.Pairs | scripts/run-seed.js:41-42 | one `key=value` text per stored key, in the object's order |
| RunSeed.JoinSpaces | scripts/run-seed.js:43 | the first part leads the joined text and a space follows it when more parts come |
| RunSeed.JoinSpacesSnoc | scripts/run-seed.js:43 | joining one more part appends a space and that part |
| RunSeed.EnvString | scripts/run-seed.js:41-43 | empty iff no variable is stored; otherwise it starts with the first stored pair, and is that pair alone when only one is stored |
| RunSeed.Command | scripts/run-seed.js:46 | the command is the variable string followed by the seed script |
| RunSeed.PairsAfterNewKey | scripts/run-seed.js:20-42 | storing a new key adds its pair after all earlier pairs |
| RunSeed.PutNewKeyAppendsPair | scripts/run-seed.js:20-43 | a new key adds ` key=value` at the end of the variable string; `__proto__` adds nothing |
| RunSeed.PutExistingKeyKeepsPairs | scripts/run-seed.js:20-43 | overwriting a key keeps every pair in its place; only that key's pair takes the new value |
| SupabaseConfig.ClientSetting | src/lib/supabase.ts:4-7 | the variable when set and non-empty, else the placeholder; never empty |
| SupabaseConfig.IsConfigured | src/lib/supabase.ts:10-18 | true iff neither variable equals its placeholder or the empty string; an unset variable passes |
| SupabaseConfig.ConfiguredIffClientUsesVariables | src/lib/supabase.ts:4-16 | with both variables set, "configured" holds iff the client is built from them and not from a placeholder |
| SupabaseConfig.UnsetCountsAsConfigured | src/lib/supabase.ts:12-16 | with neither variable set the predicate holds, though the client uses both placeholders |
| SupabaseConfig.SeedCheckImpliesConfigured | src/lib/supabase.ts:12-16 | a file that passes the seed check and holds no placeholder also configures the client |

## Left out

- Remote traffic (queries, inserts, updates, deletes, authentication, edge functions, client creation) is not modelled; each call's result is a parameter of the handler that makes it.
- `JSON.parse` is an oracle returning an optional list. A string that parses to a non-array value (such as `"{}"`) is kept by `transformMealFromDB` as that value; the model cannot represent it.
- `Date.now()` is not modelled; temporary ids take an arbitrary stamp, so two adds in the same millisecond are not modelled as colliding.
- Row dates are kept as the same `Date` value; `new Date(row.date)` string parsing and `toISOString` are not modelled.
- The inserted inventory row's column renaming (`expiry_date` to `expiryDate`) is folded into the reply: the reply already carries items.
- `Number(...)` parsing of typed quantities (NaN, fractions) is not modelled; quantities are integers.
- `getAdjustedAmount` in the recipe dialog uses `parseFloat` and `toFixed`, which is floating point.
- MealGrid.TotalPages: `itemsPerPage <= 0` (division giving `Infinity` or `NaN`) is excluded by its precondition.
- RunSeed.ParseEnv: JavaScript orders integer-like keys (such as `"1"`) before other keys in `Object.entries`; the model keeps plain insertion order.
- Reading the `.env` file, `process.exit` and running the command with `exec` are not modelled; the model stops at the command string.
- Loading flags, success-message timers, dialog visibility other than the sign-in dialog, and the recipe dialog's add-to-calendar button (it calls a global opener) are not modelled.
- Async interleaving between handlers and stale React closures are not modelled; each handler is one atomic transition over the state it reads.
- The calendar view's week and day grouping, routing, layout, and the remaining presentational components are not part of this model.
- `scripts/seed-meals.js` (a one-shot bulk insert) and the generated database types are not part of this model.
- `fetchCalendarEntries` is not modelled on its own; the initial load takes its result as given.
