/**
 * The numbers the home screen derives from today's meals and the profile:
 * macro totals, calories remaining, macro targets, the daily target and the
 * greeting for the hour.
 */
module Dashboard {
  import opened Wrappers
  import opened Types
  import opened Nutrition

  /** A meal's macros, with absent ones read as zero (`meal.macros?.protein || 0`). */
  function MacrosOf(m: Meal): Macros {
    m.macros.GetOr(NoMacros)
  }

  function Plus(a: Macros, b: Macros): Macros {
    Macros(a.protein + b.protein, a.carbs + b.carbs, a.fat + b.fat)
  }

  /** The `reduce` over today's meals: a left fold from all-zero totals. */
  function MacroTotals(meals: seq<Meal>): Macros
    decreases |meals|
  {
    if |meals| == 0 then NoMacros
    else Plus(MacroTotals(meals[..|meals| - 1]), MacrosOf(meals[|meals| - 1]))
  }

  /** The sum of one macro over the meals, first meal first. */
  function Total(meals: seq<Meal>, part: Macros -> real): real {
    if |meals| == 0 then 0.0 else part(MacrosOf(meals[0])) + Total(meals[1..], part)
  }

  lemma {:induction false} TotalSnoc(meals: seq<Meal>, m: Meal, part: Macros -> real)
    ensures Total(meals + [m], part) == Total(meals, part) + part(MacrosOf(m))
  {
    if |meals| > 0 {
      assert (meals + [m])[1..] == meals[1..] + [m];
      TotalSnoc(meals[1..], m, part);
    }
  }

  /** Each of the three totals is the sum of that macro over the meals, missing macros counting 0. */
  lemma {:induction false} MacroTotalsAreSums(meals: seq<Meal>)
    ensures MacroTotals(meals).protein == Total(meals, (x: Macros) => x.protein)
    ensures MacroTotals(meals).carbs == Total(meals, (x: Macros) => x.carbs)
    ensures MacroTotals(meals).fat == Total(meals, (x: Macros) => x.fat)
  {
    if |meals| > 0 {
      var init, last := meals[..|meals| - 1], meals[|meals| - 1];
      assert meals == init + [last];
      MacroTotalsAreSums(init);
      TotalSnoc(init, last, (x: Macros) => x.protein);
      TotalSnoc(init, last, (x: Macros) => x.carbs);
      TotalSnoc(init, last, (x: Macros) => x.fat);
    }
  }

  /** Swapping two neighbouring meals leaves a total unchanged, so it does not depend on the listing order. */
  lemma {:induction false} TotalsOfSwap(a: seq<Meal>, m: Meal, n: Meal, b: seq<Meal>, part: Macros -> real)
    ensures Total(a + [m, n] + b, part) == Total(a + [n, m] + b, part)
  {
    if |a| == 0 {
      assert ([m, n] + b)[1..] == [n] + b;
      assert ([n, m] + b)[1..] == [m] + b;
      assert ([n] + b)[1..] == b && ([m] + b)[1..] == b;
      assert a + [m, n] + b == [m, n] + b && a + [n, m] + b == [n, m] + b;
    } else {
      assert (a + [m, n] + b)[1..] == a[1..] + [m, n] + b;
      assert (a + [n, m] + b)[1..] == a[1..] + [n, m] + b;
      TotalsOfSwap(a[1..], m, n, b, part);
    }
  }

  /** `Math.max(0, dailyTarget - consumed)`. */
  function Remaining(target: real, consumed: real): (r: real)
    ensures r >= 0.0
    ensures consumed + r == if consumed >= target then consumed else target
  {
    if target - consumed > 0.0 then target - consumed else 0.0
  }

  /** Nothing remains once the target is reached, and each further calorie is not double-counted. */
  lemma RemainingShrinks(target: real, consumed: real, more: real)
    requires more >= 0.0
    ensures Remaining(target, consumed + more) <= Remaining(target, consumed)
    ensures consumed >= target ==> Remaining(target, consumed) == 0.0
  {
  }

  /** The target shown: 1800 until the profile is loaded, then the computed target. */
  function DailyTarget(userLoaded: bool, user: UserProfile): (t: int)
    ensures t >= 1200
    ensures !userLoaded ==> t == 1800
    ensures userLoaded ==> t == CalorieTarget(user)
  {
    if userLoaded then CalorieTarget(user) else 1800
  }

  /** Grams of protein, carbohydrate and fat that give 25%, 45% and 30% of the target's energy. */
  datatype MacroGrams = MacroGrams(protein: int, carbs: int, fat: int)

  function MacroTargets(target: int): (g: MacroGrams)
    ensures (g.protein as real - 0.5) * 4.0 <= target as real * 0.25 < (g.protein as real + 0.5) * 4.0
    ensures (g.carbs as real - 0.5) * 4.0 <= target as real * 0.45 < (g.carbs as real + 0.5) * 4.0
    ensures (g.fat as real - 0.5) * 9.0 <= target as real * 0.30 < (g.fat as real + 0.5) * 9.0
  {
    MacroGrams(RoundHalfUp(target as real * 0.25 / 4.0), RoundHalfUp(target as real * 0.45 / 4.0),
               RoundHalfUp(target as real * 0.30 / 9.0))
  }

  /** The energy of the three gram targets is within 8.5 kcal of the calorie target. */
  lemma MacroTargetsEnergy(target: int)
    ensures var g := MacroTargets(target);
      var kcal := 4.0 * g.protein as real + 4.0 * g.carbs as real + 9.0 * g.fat as real;
      target as real - 8.5 <= kcal <= target as real + 8.5
  {
  }

  const Evening: string := "晚上好"
  const Morning: string := "早上好"
  const Noon: string := "中午好"
  const Afternoon: string := "下午好"

  /** The greeting for the hour: evening before 5 and from 18, morning to 11, noon to 13, afternoon to 18. */
  function Greeting(hour: int): (g: string)
    ensures g == Morning <==> 5 <= hour < 11
    ensures g == Noon <==> 11 <= hour < 13
    ensures g == Afternoon <==> 13 <= hour < 18
    ensures g == Evening <==> hour < 5 || hour >= 18
  {
    if hour < 5 then Evening
    else if hour < 11 then Morning
    else if hour < 13 then Noon
    else if hour < 18 then Afternoon
    else Evening
  }
}
