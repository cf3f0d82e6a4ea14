/**
 * The filter bar (src/components/meal/FilterBar.tsx): two independent tag
 * lists, each toggled by its dropdown, and the filters reported to the
 * listener after every change.
 */
module FilterBar {
  import opened MealTypes
  import Seqs

  /** The bar's state: the selected dietary restrictions and meal types. */
  datatype Bar = Bar(dietary: seq<string>, mealTypes: seq<string>)

  /** The state after a change and the filters handed to `onFilterChange`. */
  datatype Change = Change(bar: Bar, reported: MealFilters)

  /**
   * `handleDietaryChange`: the value leaves the dietary list if present and
   * is appended otherwise; the meal types are untouched and reported alongside.
   */
  function DietaryChange(b: Bar, value: string): (c: Change)
    ensures value in c.bar.dietary <==> value !in b.dietary
    ensures value !in b.dietary ==> c.bar.dietary == b.dietary + [value]
    ensures forall i :: 0 <= i < |b.dietary| && b.dietary[i] != value ==> b.dietary[i] in c.bar.dietary
    ensures forall i :: 0 <= i < |c.bar.dietary| && c.bar.dietary[i] != value ==> c.bar.dietary[i] in b.dietary
    ensures c.bar.mealTypes == b.mealTypes
    ensures c.reported == MealFilters(c.bar.dietary, b.mealTypes)
  {
    var dietary := Seqs.Toggle(b.dietary, value);
    Change(Bar(dietary, b.mealTypes), MealFilters(dietary, b.mealTypes))
  }

  /** `handleMealTypeChange`: the same toggle on the meal types; the dietary list is untouched. */
  function MealTypeChange(b: Bar, value: string): (c: Change)
    ensures value in c.bar.mealTypes <==> value !in b.mealTypes
    ensures value !in b.mealTypes ==> c.bar.mealTypes == b.mealTypes + [value]
    ensures forall i :: 0 <= i < |b.mealTypes| && b.mealTypes[i] != value ==> b.mealTypes[i] in c.bar.mealTypes
    ensures forall i :: 0 <= i < |c.bar.mealTypes| && c.bar.mealTypes[i] != value ==> c.bar.mealTypes[i] in b.mealTypes
    ensures c.bar.dietary == b.dietary
    ensures c.reported == MealFilters(b.dietary, c.bar.mealTypes)
  {
    var types := Seqs.Toggle(b.mealTypes, value);
    Change(Bar(b.dietary, types), MealFilters(b.dietary, types))
  }

  /** `clearFilters`: both lists emptied and two empty lists reported. */
  function ClearFilters(b: Bar): (c: Change)
    ensures c.bar.dietary == [] && c.bar.mealTypes == []
    ensures c.reported == MealFilters([], [])
  {
    Change(Bar([], []), MealFilters([], []))
  }

  /** Which list a filter chip belongs to. */
  datatype Kind = Dietary | MealType

  /** `removeFilter`: the chip's close button toggles its value in its own list. */
  function RemoveFilter(b: Bar, kind: Kind, value: string): (c: Change)
    ensures kind == Dietary ==> c == DietaryChange(b, value)
    ensures kind == MealType ==> c == MealTypeChange(b, value)
  {
    match kind
    case Dietary => DietaryChange(b, value)
    case MealType => MealTypeChange(b, value)
  }

  /** The number shown as "N filters applied". */
  function AppliedCount(b: Bar): (n: nat)
    ensures n == 0 <==> b.dietary == [] && b.mealTypes == []
    ensures n >= |b.dietary| && n >= |b.mealTypes|
  {
    |b.dietary| + |b.mealTypes|
  }

  /** Both lists hold each value at most once. */
  predicate WellFormed(b: Bar) {
    Seqs.NoDup(b.dietary) && Seqs.NoDup(b.mealTypes)
  }

  /** Toggling the same value twice from absent restores the bar exactly. */
  lemma ChangeTwiceRestores(b: Bar, value: string)
    ensures value !in b.dietary ==> DietaryChange(DietaryChange(b, value).bar, value).bar == b
    ensures value !in b.mealTypes ==> MealTypeChange(MealTypeChange(b, value).bar, value).bar == b
  {
    if value !in b.dietary {
      Seqs.ToggleTwiceAbsent(b.dietary, value);
    }
    if value !in b.mealTypes {
      Seqs.ToggleTwiceAbsent(b.mealTypes, value);
    }
  }

  /** Every change keeps the lists duplicate-free. */
  lemma ChangesKeepWellFormed(b: Bar, kind: Kind, value: string)
    requires WellFormed(b)
    ensures WellFormed(RemoveFilter(b, kind, value).bar)
    ensures WellFormed(ClearFilters(b).bar)
  {
    Seqs.ToggleNoDup(b.dietary, value);
    Seqs.ToggleNoDup(b.mealTypes, value);
  }

  /**
   * Removing a shown chip takes its value out of its own list only, and the
   * applied count drops by exactly one.
   */
  lemma RemoveShownFilter(b: Bar, kind: Kind, value: string)
    requires WellFormed(b)
    requires kind == Dietary ==> value in b.dietary
    requires kind == MealType ==> value in b.mealTypes
    ensures var c := RemoveFilter(b, kind, value);
            (kind == Dietary ==> value !in c.bar.dietary && c.bar.mealTypes == b.mealTypes)
            && (kind == MealType ==> value !in c.bar.mealTypes && c.bar.dietary == b.dietary)
            && AppliedCount(c.bar) == AppliedCount(b) - 1
  {
    if kind == Dietary {
      Seqs.WithoutPresentLength(b.dietary, value);
    } else {
      Seqs.WithoutPresentLength(b.mealTypes, value);
    }
  }

  /**
   * On a bar without duplicates every checkbox click moves the count by
   * one: down when the value was selected, up when it was not. Clearing
   * brings it to zero.
   */
  lemma ChangesMoveCount(b: Bar, value: string)
    requires WellFormed(b)
    ensures AppliedCount(DietaryChange(b, value).bar) == AppliedCount(b) + (if value in b.dietary then -1 else 1)
    ensures AppliedCount(MealTypeChange(b, value).bar) == AppliedCount(b) + (if value in b.mealTypes then -1 else 1)
    ensures AppliedCount(ClearFilters(b).bar) == 0
  {
    if value in b.dietary {
      Seqs.WithoutPresentLength(b.dietary, value);
    }
    if value in b.mealTypes {
      Seqs.WithoutPresentLength(b.mealTypes, value);
    }
  }
}
