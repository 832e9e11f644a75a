/**
 * The history screen: the diary grouped by date, dates newest first, each
 * day's meals newest first, and the edit dialog that rewrites a meal's
 * name, calories and macros.
 */
module History {
  import opened Wrappers
  import opened Types
  import opened MealQueries
  import opened MealStorage
  import MealService

  predicate Distinct(s: seq<int>) {
    forall i, j :: 0 <= i < j < |s| ==> s[i] != s[j]
  }

  /** Strictly descending: later positions hold earlier dates. */
  predicate Descending(s: seq<int>) {
    forall i, j :: 0 <= i < j < |s| ==> s[i] > s[j]
  }

  /** Places `x` before the first smaller date. */
  function InsertDesc(x: int, s: seq<int>): (r: seq<int>)
    requires Descending(s) && x !in s
    ensures Descending(r)
    ensures multiset(r) == multiset(s) + multiset{x}
    ensures |r| == |s| + 1
  {
    if |s| == 0 || s[0] < x then
      ConsDescending(x, s);
      [x] + s
    else
      var rest := InsertDesc(x, s[1..]);
      assert s == [s[0]] + s[1..];
      AllBelow(s[0], s[1..], x, rest);
      ConsDescending(s[0], rest);
      [s[0]] + rest
  }

  /** A descending sequence stays descending under a larger head. */
  lemma ConsDescending(h: int, s: seq<int>)
    requires Descending(s) && forall k :: 0 <= k < |s| ==> s[k] < h
    ensures Descending([h] + s)
  {
    var r := [h] + s;
    forall i, j | 0 <= i < j < |r| ensures r[i] > r[j] {
      assert r[j] == s[j - 1];
      if i > 0 {
        assert r[i] == s[i - 1];
      }
    }
  }

  /** Every element of a rearrangement of `tail` plus `x` lies below a bound above them all. */
  lemma AllBelow(h: int, tail: seq<int>, x: int, rest: seq<int>)
    requires Descending([h] + tail) && x < h
    requires multiset(rest) == multiset(tail) + multiset{x}
    ensures forall k :: 0 <= k < |rest| ==> rest[k] < h
  {
    forall k | 0 <= k < |rest| ensures rest[k] < h {
      assert rest[k] in multiset(rest);
      if rest[k] != x {
        assert rest[k] in multiset(tail);
        var i :| 0 <= i < |tail| && tail[i] == rest[k];
        assert ([h] + tail)[0] == h && ([h] + tail)[i + 1] == tail[i];
      }
    }
  }

  /** `sortedDates`: the bucket keys, latest date first (the source compares the dates' times). */
  function SortDatesDesc(keys: seq<int>): (r: seq<int>)
    requires Distinct(keys)
    ensures Descending(r)
    ensures multiset(r) == multiset(keys)
  {
    if |keys| == 0 then []
    else
      assert keys == [keys[0]] + keys[1..];
      var rest := SortDatesDesc(keys[1..]);
      assert keys[0] !in multiset(rest);
      InsertDesc(keys[0], rest)
  }

  /** Sorting the dates keeps exactly the same dates. */
  lemma SortedDatesSameSet(keys: seq<int>)
    requires Distinct(keys)
    ensures (set x | x in SortDatesDesc(keys)) == (set x | x in keys)
    ensures |SortDatesDesc(keys)| == |keys|
  {
    var r := SortDatesDesc(keys);
    assert forall x :: x in r <==> x in multiset(r);
    assert forall x :: x in keys <==> x in multiset(keys);
    assert |r| == |multiset(r)| == |multiset(keys)| == |keys|;
  }

  /** A logged date's meals are never empty. */
  lemma OnLoggedDate(meals: seq<Meal>, d: int)
    requires d in LoggedDates(meals)
    ensures |OnDate(meals, d)| > 0
  {
    var m :| m in meals && m.date == d;
  }

  /** One section: a day's meals, newest first. */
  function Section(meals: seq<Meal>, d: int): (r: seq<Meal>)
    ensures NewestFirst(r) && multiset(r) == multiset(OnDate(meals, d))
  {
    SortNewestFirst(OnDate(meals, d))
  }

  /**
   * The screen's sections: the dates that have meals, latest first, each with
   * that day's meals newest first.
   */
  method HistoryView(meals: seq<Meal>) returns (dates: seq<int>, sections: seq<seq<Meal>>)
    ensures Descending(dates)
    ensures (set x | x in dates) == LoggedDates(meals)
    ensures |sections| == |dates|
    ensures forall k :: 0 <= k < |dates| ==> sections[k] == Section(meals, dates[k]) && |sections[k]| > 0
  {
    dates := SortedDates(meals);
    sections := seq(|dates|, k requires 0 <= k < |dates| => Section(meals, dates[k]));
    SectionsNonEmpty(meals, dates);
  }

  /** `sortedDates`: the keys of the grouping, latest first. */
  method SortedDates(meals: seq<Meal>) returns (dates: seq<int>)
    ensures Descending(dates)
    ensures (set x | x in dates) == LoggedDates(meals)
  {
    var groups, keys := GroupByDate(meals);
    assert Distinct(keys);
    dates := SortDatesDesc(keys);
    SortedDatesSameSet(keys);
  }

  /** Every logged date has a non-empty section. */
  lemma SectionsNonEmpty(meals: seq<Meal>, dates: seq<int>)
    requires forall k :: 0 <= k < |dates| ==> dates[k] in LoggedDates(meals)
    ensures forall k :: 0 <= k < |dates| ==> |Section(meals, dates[k])| > 0
  {
    forall k | 0 <= k < |dates| ensures |Section(meals, dates[k])| > 0 {
      OnLoggedDate(meals, dates[k]);
      assert |multiset(Section(meals, dates[k]))| == |multiset(OnDate(meals, dates[k]))|;
    }
  }

  /** What the edit dialog shows and returns: name, calories and macros. */
  datatype NutritionData = NutritionData(name: string, calories: real, macros: Macros)

  /** The dialog's initial data; a meal without macros shows them all as 0. */
  function EditorData(m: Meal): (d: NutritionData)
    ensures d.name == m.name && d.calories == m.calories
    ensures m.macros.None? ==> d.macros == NoMacros
    ensures m.macros.Some? ==> d.macros == m.macros.value
  {
    NutritionData(m.name, m.calories, m.macros.GetOr(NoMacros))
  }

  /** `handleEditSave`'s meal: the edited meal with the dialog's name, calories and macros. */
  function EditedMeal(m: Meal, data: NutritionData): (r: Meal)
    ensures r.name == data.name && r.calories == data.calories && r.macros == Some(data.macros)
    ensures r.(name := m.name, calories := m.calories, macros := m.macros) == m
  {
    m.(name := data.name, calories := data.calories, macros := Some(data.macros))
  }

  /**
   * Saving the dialog untouched changes a meal that has macros not at all, and
   * gives a meal without macros explicit zero macros.
   */
  lemma UntouchedEdit(m: Meal)
    ensures EditedMeal(m, EditorData(m)) == m.(macros := Some(m.macros.GetOr(NoMacros)))
    ensures m.macros.Some? ==> EditedMeal(m, EditorData(m)) == m
  {
  }

  /** The screen's editing state. */
  class HistoryScreen {
    var editingMeal: Option<Meal>

    constructor()
      ensures editingMeal.None?
    {
      editingMeal := None;
    }

    /** Clicking a meal opens the dialog on it. */
    method StartEditing(m: Meal)
      modifies this
      ensures editingMeal == Some(m)
    {
      editingMeal := Some(m);
    }

    /**
     * `handleEditSave`: the edited meal replaces every meal with its id in the
     * store (which keeps its list when the write fails), and the dialog closes.
     * With no meal being edited nothing happens.
     */
    method HandleEditSave(store: MealStore, data: NutritionData, writeOk: bool)
      requires store.Valid() && store.isLoaded
      modifies this, store
      ensures store.Valid() && store.isLoaded
      ensures old(editingMeal).None? ==> editingMeal.None? && unchanged(store)
      ensures old(editingMeal).Some? ==> (editingMeal.None?
        && store.meals == if writeOk then ReplaceById(old(store.meals), EditedMeal(old(editingMeal).value, data))
                          else old(store.meals))
      ensures old(editingMeal).Some? ==> store.storage == if writeOk then MealService.Holds(store.meals) else old(store.storage)
    {
      if editingMeal.Some? {
        store.Update(EditedMeal(editingMeal.value, data), writeOk);
        editingMeal := None;
      }
    }
  }

  /** An edit leaves the edited meal's id, date, time, type, image and timestamp in the store. */
  lemma EditKeepsIdentity(meals: seq<Meal>, m: Meal, data: NutritionData, k: int)
    requires 0 <= k < |meals| && meals[k].id == m.id
    ensures var r := ReplaceById(meals, EditedMeal(m, data))[k];
      r.id == m.id && r.date == m.date && r.time == m.time && r.mealType == m.mealType
      && r.image == m.image && r.timestamp == m.timestamp
  {
  }
}
