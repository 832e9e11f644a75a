/**
 * The browser-storage meal service: the diary kept under one key of
 * `localStorage`, seeded with two demonstration meals on first read, and the
 * meal-type guess from the hour of the day.
 */
module MealService {
  import opened Wrappers
  import opened Types
  import opened MealQueries

  /** What the storage key holds: nothing (or an empty text), a readable diary, or text that fails to parse. */
  datatype Stored = Missing | Holds(meals: seq<Meal>) | Unreadable

  const OatmealImage: string := "https://lh3.googleusercontent.com/aida-public/AB6AXuCpaeR22QymxTIADVfnpAjc9tQ8-k0GRWxC72gfQDjnRSQKnfzpCKKZQsZkbu2oUcsSwIq5NGJ8oFKwyaN0_8e9fudVNAVK7W1orizT9gevqdRzZQgJ-lO-xhJxlqDKBn0pL_iGUzP64iplEQMO_-j6IDZ5GoDiJFnBtlYoizP8xpN93lbimeh643ujIZX44bMvc2DqUMRt1NLEqB8Frc0peHKO8AkAa5oStq1hHoNA-sieI6l9Y1LiwDfCv9_JnXorzAQb_X_Jog"
  const SaladImage: string := "https://lh3.googleusercontent.com/aida-public/AB6AXuC-oGecJnqENgkEMmPsE9qDMPUGiOYjQix-PxU3EqbbnxU3_wicbpXsMl3gHPDhcdCJ_KBKsD5AyGhJpsW7zSDm0BsgAJrF4RNFLX9zBGeGwB61YnKb-I8Fu8J7EVYs6RBsnHVuS8W30Xu5o9MZjnWctFT6dReo8dIKAlJdhGguS8M0CxlfliJ3CKH3KH2Mmz4MPQtcQZpYA4ADCZw-t1ELKGW910NPomDITVNJ875slCKI8mDFEyRJCzA74x-sRItW1UjSCZWP-A"

  /**
   * The demonstration diary. The source builds it once, when the module is loaded,
   * so its date and timestamps are those of the load, not of the first read.
   */
  function ServiceSeed(loadDay: int, loadTime: int): (seed: seq<Meal>)
    ensures |seed| == 2 && seed[0].date == seed[1].date == loadDay
  {
    [ Meal("1", "Oatmeal with Berries", Breakfast, "08:30 AM", 350.0, OatmealImage, loadDay, loadTime - 10000000, None),
      Meal("2", "Grilled Chicken Salad", Lunch, "01:15 PM", 450.0, SaladImage, loadDay, loadTime - 5000000, None) ]
  }

  /** `inferMealType`: breakfast from 5 to 10 o'clock, lunch 11 to 14, dinner 17 to 21, a snack otherwise. */
  function InferMealType(hour: int): (t: MealType)
    ensures t == Breakfast <==> 5 <= hour < 11
    ensures t == Lunch <==> 11 <= hour < 15
    ensures t == Dinner <==> 17 <= hour < 22
    ensures t == Snack <==> hour < 5 || 15 <= hour < 17 || hour >= 22
  {
    if 5 <= hour < 11 then Breakfast
    else if 11 <= hour < 15 then Lunch
    else if 17 <= hour < 22 then Dinner
    else Snack
  }

  /** `calculateDailyCalories`: the calories of the listed meals added up, 0 for none. */
  function CalculateDailyCalories(meals: seq<Meal>): (total: real)
    ensures |meals| == 0 ==> total == 0.0
    ensures forall m :: SumCalories([m] + meals) == m.calories + total
  {
    assert forall m :: SumCalories([m] + meals) == m.calories + SumCalories(meals) by {
      forall m ensures SumCalories([m] + meals) == m.calories + SumCalories(meals) {
        SumCaloriesCons(m, meals);
      }
    }
    SumCalories(meals)
  }

  /** What a `getMeals` call returns, given what is stored and whether writing succeeds. */
  function ReadMeals(stored: Stored, seed: seq<Meal>, writeOk: bool): (r: seq<Meal>)
    ensures stored.Holds? ==> r == stored.meals
    ensures r == [] || StoredAfterRead(stored, seed, writeOk) == Holds(r)
  {
    match stored
    case Missing => if writeOk then seed else []
    case Holds(meals) => meals
    case Unreadable => []
  }

  /** What is stored after a `getMeals` call. */
  function StoredAfterRead(stored: Stored, seed: seq<Meal>, writeOk: bool): Stored {
    if stored.Missing? && writeOk then Holds(seed) else stored
  }

  /** Reading twice gives what reading once gives: the seeding happens at most once. */
  lemma ReadMealsStable(stored: Stored, seed: seq<Meal>, writeOk: bool)
    ensures var after := StoredAfterRead(stored, seed, writeOk);
      StoredAfterRead(after, seed, writeOk) == after
      && ReadMeals(after, seed, writeOk) == ReadMeals(stored, seed, writeOk)
  {
  }

  /** The diary under the storage key. */
  class LocalMealDb {
    var stored: Stored
    const seed: seq<Meal>

    constructor(initial: Stored, loadDay: int, loadTime: int)
      ensures stored == initial && seed == ServiceSeed(loadDay, loadTime)
    {
      stored := initial;
      seed := ServiceSeed(loadDay, loadTime);
    }

    /**
     * `getMeals`: the stored diary; when nothing is stored, the seed is written and
     * returned; any read, parse or write error yields the empty list.
     */
    method GetMeals(writeOk: bool) returns (meals: seq<Meal>)
      modifies this
      ensures meals == ReadMeals(old(stored), seed, writeOk)
      ensures stored == StoredAfterRead(old(stored), seed, writeOk)
    {
      match stored {
        case Missing =>
          if writeOk {
            stored := Holds(seed);
            meals := seed;
          } else {
            meals := [];
          }
        case Holds(ms) =>
          meals := ms;
        case Unreadable =>
          meals := [];
      }
    }

    /**
     * `addMeal`: the new meal in front of what `getMeals` returned, written back.
     * Two writes may happen: `seedOk` tells whether the seeding inside `getMeals`
     * succeeds (its failure is caught there), `writeOk` whether the final write
     * does. That one is not caught, so the call fails (`ok` is false) and only
     * the seeding is left in storage.
     */
    method AddMeal(meal: Meal, seedOk: bool, writeOk: bool) returns (ok: bool)
      modifies this
      ensures ok == writeOk
      ensures ok ==> stored == Holds([meal] + ReadMeals(old(stored), seed, seedOk))
      ensures !ok ==> stored == StoredAfterRead(old(stored), seed, seedOk)
    {
      var meals := GetMeals(seedOk);
      if writeOk {
        stored := Holds([meal] + meals);
      }
      ok := writeOk;
    }

    /** `getTodayMeals`: today's meals from `getMeals`, newest first. */
    method GetTodayMeals(today: int, writeOk: bool) returns (r: seq<Meal>)
      modifies this
      ensures r == TodayMeals(ReadMeals(old(stored), seed, writeOk), today)
      ensures stored == StoredAfterRead(old(stored), seed, writeOk)
    {
      var meals := GetMeals(writeOk);
      r := TodayMeals(meals, today);
    }

    /** `getHistory`: the meals from `getMeals`, bucketed by date. */
    method GetHistory(writeOk: bool) returns (groups: map<int, seq<Meal>>)
      modifies this
      ensures Grouped(ReadMeals(old(stored), seed, writeOk), groups)
      ensures stored == StoredAfterRead(old(stored), seed, writeOk)
    {
      var meals := GetMeals(writeOk);
      var keys;
      groups, keys := GroupByDate(meals);
    }
  }

  /**
   * Adding when nothing is stored: the new meal goes in front of the seed, or
   * stands alone when the seeding write failed.
   */
  lemma AddToMissing(meal: Meal, seed: seq<Meal>, seedOk: bool)
    ensures [meal] + ReadMeals(Missing, seed, seedOk) == if seedOk then [meal] + seed else [meal]
  {
    if !seedOk {
      assert [meal] + [] == [meal];
    }
  }

  /** Adding to a diary that fails to parse replaces it: only the new meal is kept. */
  lemma AddToUnreadableKeepsOnlyNew(meal: Meal, seed: seq<Meal>)
    ensures Holds([meal] + ReadMeals(Unreadable, seed, true)) == Holds([meal])
  {
    assert [meal] + [] == [meal];
  }
}
