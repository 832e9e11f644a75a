/**
 * The meal-store hook: an in-memory diary (`meals`, `isLoaded`) mirrored to a
 * key of the device's preference storage. Every change is written first and
 * adopted in memory only when the write succeeds.
 */
module MealStorage {
  import opened Wrappers
  import opened Types
  import opened Seqs
  import opened MealQueries
  import MealService

  /** The hook's demonstration diary: the service's two meals, with macros. */
  function StoreSeed(loadDay: int, loadTime: int): (seed: seq<Meal>)
    ensures |seed| == 2 && seed[0].date == seed[1].date == loadDay
    ensures forall k :: 0 <= k < 2 ==> seed[k].macros.Some?
  {
    [ Meal("1", "Oatmeal with Berries", Breakfast, "08:30 AM", 350.0, MealService.OatmealImage, loadDay,
           loadTime - 10000000, Some(Macros(12.0, 60.0, 6.0))),
      Meal("2", "Grilled Chicken Salad", Lunch, "01:15 PM", 450.0, MealService.SaladImage, loadDay,
           loadTime - 5000000, Some(Macros(45.0, 12.0, 20.0))) ]
  }

  /** The two seeds describe the same meals; only the macros differ. */
  lemma SeedsAgreeButMacros(loadDay: int, loadTime: int)
    ensures var a, b := MealService.ServiceSeed(loadDay, loadTime), StoreSeed(loadDay, loadTime);
      forall k :: 0 <= k < 2 ==> a[k].(macros := None) == b[k].(macros := None) && a[k].macros.None?
  {
  }

  class MealStore {
    var meals: seq<Meal>
    var isLoaded: bool
    /** The preference key's content; a failed read is `Unreadable`. */
    var storage: MealService.Stored
    const seed: seq<Meal>

    /**
     * Memory mirrors storage once loaded: a readable stored diary is the
     * in-memory one, and an absent key goes with an empty list. Before the
     * first load the list is empty unless an add or save already wrote it.
     */
    predicate Valid()
      reads this
    {
      (!isLoaded && meals != [] ==> storage == MealService.Holds(meals))
      && (isLoaded && storage.Holds? ==> storage.meals == meals)
      && (isLoaded && storage.Missing? ==> meals == [])
    }

    constructor(initial: MealService.Stored, loadDay: int, loadTime: int)
      ensures Valid() && !isLoaded && meals == []
      ensures storage == initial && seed == StoreSeed(loadDay, loadTime)
    {
      meals := [];
      isLoaded := false;
      storage := initial;
      seed := StoreSeed(loadDay, loadTime);
    }

    /**
     * `loadMeals` (also `refresh`): a stored diary is adopted; an absent key is
     * seeded, and the seed adopted once written; a failed read, parse or write
     * leaves the list as it was. `isLoaded` is set in every case.
     */
    method Load(writeOk: bool)
      requires Valid()
      modifies this
      ensures Valid() && isLoaded
      ensures old(storage).Holds? ==> meals == old(storage).meals && storage == old(storage)
      ensures old(storage).Missing? && writeOk ==> meals == seed && storage == MealService.Holds(seed)
      ensures old(storage).Missing? && !writeOk ==> meals == old(meals) && storage == old(storage)
      ensures old(storage).Unreadable? ==> meals == old(meals) && storage == old(storage)
    {
      match storage {
        case Holds(ms) =>
          meals := ms;
        case Missing =>
          if writeOk {
            storage := MealService.Holds(seed);
            meals := seed;
          }
        case Unreadable =>
      }
      isLoaded := true;
    }

    /**
     * `saveMealsToStorage`: write, then adopt; a failed write changes nothing.
     * Nothing waits for the first load, so a save before it replaces whatever
     * was stored.
     */
    method Save(updated: seq<Meal>, writeOk: bool)
      requires Valid()
      modifies this
      ensures Valid() && isLoaded == old(isLoaded)
      ensures writeOk ==> meals == updated && storage == MealService.Holds(updated)
      ensures !writeOk ==> meals == old(meals) && storage == old(storage)
    {
      if writeOk {
        storage := MealService.Holds(updated);
        meals := updated;
      }
    }

    /**
     * `addMeal`: the new meal in front of the list in memory, written to storage.
     * Before the first load that list is empty, and the stored diary is lost.
     */
    method Add(meal: Meal, writeOk: bool)
      requires Valid()
      modifies this
      ensures Valid() && isLoaded == old(isLoaded)
      ensures meals == if writeOk then [meal] + old(meals) else old(meals)
      ensures writeOk ==> storage == MealService.Holds([meal] + old(meals))
      ensures !writeOk ==> storage == old(storage)
      ensures !old(isLoaded) && old(meals) == [] && writeOk ==> storage == MealService.Holds([meal])
    {
      Save([meal] + meals, writeOk);
    }

    /** `updateMeal`: every meal carrying the edited meal's id is replaced by it. */
    method Update(updated: Meal, writeOk: bool)
      requires Valid() && isLoaded
      modifies this
      ensures Valid() && isLoaded
      ensures meals == if writeOk then ReplaceById(old(meals), updated) else old(meals)
      ensures storage == if writeOk then MealService.Holds(meals) else old(storage)
    {
      Save(ReplaceById(meals, updated), writeOk);
    }

    /** `removeMeal`: every meal carrying the id is dropped. */
    method Remove(id: string, writeOk: bool)
      requires Valid() && isLoaded
      modifies this
      ensures Valid() && isLoaded
      ensures meals == if writeOk then RemoveById(old(meals), id) else old(meals)
      ensures storage == if writeOk then MealService.Holds(meals) else old(storage)
    {
      Save(RemoveById(meals, id), writeOk);
    }

    /** `clearAllMeals`: the key is removed and the list emptied; a failed removal changes nothing. */
    method Clear(removeOk: bool)
      requires Valid()
      modifies this
      ensures Valid() && isLoaded == old(isLoaded)
      ensures removeOk ==> meals == [] && storage == MealService.Missing
      ensures !removeOk ==> meals == old(meals) && storage == old(storage)
    {
      if removeOk {
        storage := MealService.Missing;
        meals := [];
      }
    }

    /** `getTodayMeals`: today's meals, newest first. */
    function GetTodayMeals(today: int): (r: seq<Meal>)
      reads this
      ensures NewestFirst(r)
      ensures multiset(r) == multiset(OnDate(meals, today))
    {
      TodayMeals(meals, today)
    }

    /** `getDailyCalories`: the calories of today's meals, in list order. */
    function GetDailyCalories(today: int): (total: real)
      reads this
      ensures total == SumCalories(GetTodayMeals(today))
    {
      TodayMealsAddUp(meals, today);
      DailyCalories(meals, today)
    }
  }

  /** After an add, today's total grows by the new meal's calories when it is dated today. */
  lemma AddedMealCounted(meals: seq<Meal>, meal: Meal, today: int)
    ensures DailyCalories([meal] + meals, today)
         == (if meal.date == today then meal.calories else 0.0) + DailyCalories(meals, today)
  {
    assert OnDate([meal] + meals, today) == (if meal.date == today then [meal] else []) + OnDate(meals, today) by {
      assert ([meal] + meals)[1..] == meals;
    }
    if meal.date == today {
      SumCaloriesCons(meal, OnDate(meals, today));
    } else {
      assert [] + OnDate(meals, today) == OnDate(meals, today);
    }
  }

  /**
   * A meal added on a fresh store before its first load has run is written
   * over the stored diary: once the load runs, storage and memory both hold
   * the new meal alone, whatever `diary` held.
   */
  method AddBeforeLoad(diary: seq<Meal>, meal: Meal, loadDay: int, loadTime: int) returns (store: MealStore)
    ensures store.Valid() && store.isLoaded
    ensures store.storage == MealService.Holds([meal]) && store.meals == [meal]
  {
    store := new MealStore(MealService.Holds(diary), loadDay, loadTime);
    store.Add(meal, true);
    store.Load(true);
  }

  /** An edit saved after its meal was removed does not bring the meal back. */
  lemma RemoveThenReplaceNoop(meals: seq<Meal>, id: string, updated: Meal)
    requires updated.id == id
    ensures ReplaceById(RemoveById(meals, id), updated) == RemoveById(meals, id)
  {
    var r := RemoveById(meals, id);
    forall k | 0 <= k < |r| ensures r[k].id != id {
      RemoveByIdExact(meals, id, r[k]);
    }
  }
}
