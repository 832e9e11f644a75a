/**
 * The daily calorie target: the Mifflin-St Jeor basal metabolic rate, scaled
 * by an activity multiplier, shifted by the weight goal, rounded as
 * `Math.round` rounds and floored at a gender-specific minimum.
 */
module Nutrition {
  import opened Types

  /** `Math.round`: the nearest integer, halves rounded towards positive infinity. */
  function RoundHalfUp(x: real): (r: int)
    ensures r as real - 0.5 <= x < r as real + 0.5
  {
    (x + 0.5).Floor
  }

  /** The rounding of an integer is that integer. */
  lemma RoundOfInteger(n: int)
    ensures RoundHalfUp(n as real) == n
  {
  }

  /** Rounding is monotone: a larger value never rounds lower. */
  lemma RoundMonotone(x: real, y: real)
    requires x <= y
    ensures RoundHalfUp(x) <= RoundHalfUp(y)
  {
  }

  /** Basal metabolic rate in kcal per day: +5 for men, -161 for women. */
  function Bmr(u: UserProfile): real {
    var base := 10.0 * u.currentWeight + 6.25 * u.height as real - 5.0 * u.age as real;
    if u.gender == Male then base + 5.0 else base - 161.0
  }

  /** A man's rate exceeds a woman's of the same build by 166 kcal. */
  lemma BmrGenderGap(u: UserProfile)
    ensures Bmr(u.(gender := Male)) == Bmr(u.(gender := Female)) + 166.0
  {
  }

  /** The rate grows with weight and height and falls with age. */
  lemma BmrMonotone(u: UserProfile, v: UserProfile)
    requires u.gender == v.gender
    requires u.currentWeight <= v.currentWeight && u.height <= v.height && u.age >= v.age
    ensures Bmr(u) <= Bmr(v)
  {
  }

  /** The position of an activity level on the scale from sedentary to very active. */
  function ActivityRank(level: ActivityLevel): nat {
    match level
    case Sedentary => 0
    case Light => 1
    case Moderate => 2
    case Active => 3
    case VeryActive => 4
  }

  /** The factor from basal rate to daily expenditure. */
  function ActivityMultiplier(level: ActivityLevel): (m: real)
    ensures 1.2 <= m <= 1.9
    ensures m == 1.2 <==> level == Sedentary
    ensures level == Light ==> m == 1.375
    ensures level == Moderate ==> m == 1.55
    ensures level == Active ==> m == 1.725
    ensures level == VeryActive ==> m == 1.9
  {
    match level
    case Sedentary => 1.2
    case Light => 1.375
    case Moderate => 1.55
    case Active => 1.725
    case VeryActive => 1.9
  }

  /** A more active level has a strictly larger multiplier. */
  lemma MultiplierIncreasing(a: ActivityLevel, b: ActivityLevel)
    requires ActivityRank(a) < ActivityRank(b)
    ensures ActivityMultiplier(a) < ActivityMultiplier(b)
  {
  }

  /** The goal shift: a deficit to lose, a smaller surplus to gain, none within 0.5 kg. */
  function GoalAdjustment(current: real, goal: real): (delta: real)
    ensures delta == -500.0 <==> goal < current - 0.5
    ensures delta == 300.0 <==> goal > current + 0.5
    ensures delta == 0.0 <==> current - 0.5 <= goal <= current + 0.5
  {
    if goal < current - 0.5 then -500.0
    else if goal > current + 0.5 then 300.0
    else 0.0
  }

  /** The unrounded target: daily expenditure plus the goal shift. */
  function RawTarget(u: UserProfile): real {
    Bmr(u) * ActivityMultiplier(u.activityLevel) + GoalAdjustment(u.currentWeight, u.goalWeight)
  }

  /** The safety floor: 1500 kcal for men, 1200 otherwise. */
  function MinCalories(g: Gender): (n: int)
    ensures n == 1200 || n == 1500
    ensures g == Male ==> n == 1500
    ensures g != Male ==> n == 1200
  {
    if g == Male then 1500 else 1200
  }

  /** `calculateDailyCalorieTarget`: the rounded target, never below the floor. */
  function CalorieTarget(u: UserProfile): (t: int)
    ensures t >= MinCalories(u.gender)
    ensures t >= RoundHalfUp(RawTarget(u))
    ensures t == MinCalories(u.gender) || t == RoundHalfUp(RawTarget(u))
  {
    var r := RoundHalfUp(RawTarget(u));
    if r > MinCalories(u.gender) then r else MinCalories(u.gender)
  }

  /** Above the floor, the target is the expenditure rounded, shifted by the goal. */
  lemma TargetAboveFloor(u: UserProfile)
    requires RoundHalfUp(RawTarget(u)) >= MinCalories(u.gender)
    ensures CalorieTarget(u) as real - 0.5 <= RawTarget(u) < CalorieTarget(u) as real + 0.5
  {
  }

  /** With the goal within 0.5 kg of the current weight there is no shift. */
  lemma MaintenanceTarget(u: UserProfile)
    requires u.currentWeight - 0.5 <= u.goalWeight <= u.currentWeight + 0.5
    ensures RawTarget(u) == Bmr(u) * ActivityMultiplier(u.activityLevel)
  {
  }

  /** Wanting to lose instead of gain lowers the unrounded target by 800 kcal. */
  lemma LoseVersusGain(u: UserProfile, lower: real, higher: real)
    requires lower < u.currentWeight - 0.5 && higher > u.currentWeight + 0.5
    ensures RawTarget(u.(goalWeight := lower)) + 800.0 == RawTarget(u.(goalWeight := higher))
  {
  }

  /** A more active user with the same profile gets a target at least as high, for a positive rate. */
  lemma TargetMonotoneInActivity(u: UserProfile, level: ActivityLevel)
    requires Bmr(u) > 0.0
    requires ActivityRank(u.activityLevel) <= ActivityRank(level)
    ensures CalorieTarget(u) <= CalorieTarget(u.(activityLevel := level))
  {
    var v := u.(activityLevel := level);
    if ActivityRank(u.activityLevel) < ActivityRank(level) {
      MultiplierIncreasing(u.activityLevel, level);
    }
    assert Bmr(v) == Bmr(u);
    assert Bmr(u) * ActivityMultiplier(u.activityLevel) <= Bmr(u) * ActivityMultiplier(level);
    RoundMonotone(RawTarget(u), RawTarget(v));
  }

  const SedentaryLabel: string := "久坐少动"

  /** `getActivityLabel`: the label for a stored level name; anything unknown reads as sedentary. */
  function GetActivityLabel(level: string): (text: string)
    ensures level !in {"sedentary", "light", "moderate", "active", "very_active"} ==> text == SedentaryLabel
  {
    if level == "sedentary" then SedentaryLabel
    else if level == "light" then "轻度运动 (每周1-3次)"
    else if level == "moderate" then "中度运动 (每周3-5次)"
    else if level == "active" then "积极运动 (每周6-7次)"
    else if level == "very_active" then "专业/高强度"
    else SedentaryLabel
  }

  /** The stored name of an activity level. */
  function LevelName(level: ActivityLevel): string {
    match level
    case Sedentary => "sedentary"
    case Light => "light"
    case Moderate => "moderate"
    case Active => "active"
    case VeryActive => "very_active"
  }

  /** Every known level has its own label, and only the sedentary one shares the default. */
  lemma LabelsDistinct(a: ActivityLevel, b: ActivityLevel)
    requires a != b
    ensures GetActivityLabel(LevelName(a)) != GetActivityLabel(LevelName(b))
  {
  }
}
