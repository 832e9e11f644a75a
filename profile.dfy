/**
 * The profile screen's logic: the logging streak, the month calendar, the
 * weight-progress bar and the two editors (a weight, and the body data that
 * feeds the calorie target).
 */
module Profile {
  import opened Wrappers
  import opened JsStrings
  import opened JsNumbers
  import opened Dates
  import opened Types
  import opened MealQueries

  // ---- Streak ----

  /** Where a streak is counted from: today if logged, else yesterday if logged, else nowhere. */
  function StreakStart(logged: set<int>, today: int): (start: Option<int>)
    ensures start.Some? ==> start.value in logged && (start.value == today || start.value == today - 1)
    ensures start.None? <==> today !in logged && today - 1 !in logged
  {
    if today in logged then Some(today)
    else if today - 1 in logged then Some(today - 1)
    else None
  }

  /** Every day of the `n` days ending at `start` is logged. */
  predicate LoggedRun(logged: set<int>, start: int, n: nat) {
    forall d :: start - n < d <= start ==> d in logged
  }

  /** A run of logged days is no longer than the number of logged days. */
  lemma {:induction false} RunWithinLogged(logged: set<int>, start: int, n: nat)
    requires LoggedRun(logged, start, n)
    ensures n <= |logged|
    decreases n
  {
    if n > 0 {
      assert start in logged;
      var rest := logged - {start};
      assert LoggedRun(rest, start - 1, n - 1);
      RunWithinLogged(rest, start - 1, n - 1);
    }
  }

  /**
   * `currentStreak`: the number of consecutive logged days ending today, or
   * ending yesterday when today has no meal yet; 0 when neither is logged.
   */
  method CurrentStreak(meals: seq<Meal>, today: int) returns (streak: nat)
    ensures |meals| == 0 ==> streak == 0
    ensures StreakStart(LoggedDates(meals), today).None? ==> streak == 0
    ensures StreakStart(LoggedDates(meals), today).Some? ==>
      var start := StreakStart(LoggedDates(meals), today).value;
      streak >= 1 && LoggedRun(LoggedDates(meals), start, streak) && start - streak !in LoggedDates(meals)
    ensures streak <= |LoggedDates(meals)|
  {
    if |meals| == 0 {
      return 0;
    }
    var logged := LoggedDates(meals);
    var start: int;
    if today in logged {
      start := today;
    } else if today - 1 in logged {
      start := today - 1;
    } else {
      return 0;
    }
    streak := 0;
    var cursor := start;
    while cursor in logged
      invariant cursor == start - streak
      invariant LoggedRun(logged, start, streak)
      invariant streak <= |logged|
      decreases |logged| - streak
    {
      RunWithinLogged(logged, start, streak + 1);
      streak := streak + 1;
      cursor := cursor - 1;
    }
  }

  /** A streak is determined by its start: two maximal runs from the same day have the same length. */
  lemma StreakUnique(logged: set<int>, start: int, m: nat, n: nat)
    requires LoggedRun(logged, start, m) && start - m !in logged
    requires LoggedRun(logged, start, n) && start - n !in logged
    ensures m == n
  {
  }

  // ---- Month calendar ----

  /** One cell of the month grid. */
  datatype CalendarDay = CalendarDay(day: int, hasMeals: bool, isToday: bool, dateStr: string)

  /** The cell for day `day` of the month: its date text, whether a meal is logged then and whether it is today. */
  function CalendarCell(year: int, month: int, day: int, meals: seq<Meal>, today: int): (c: CalendarDay)
    ensures c.day == day && c.dateStr == FormatDate(CivilDate(year, month, day))
    ensures c.hasMeals <==> DayNumber(CivilDate(year, month, day)) in LoggedDates(meals)
    ensures c.isToday <==> DayNumber(CivilDate(year, month, day)) == today
  {
    var dayNumber := DayNumber(CivilDate(year, month, day));
    var hasMeals := exists j :: 0 <= j < |meals| && meals[j].date == dayNumber;
    assert hasMeals <==> dayNumber in LoggedDates(meals) by {
      if dayNumber in LoggedDates(meals) {
        var m :| m in meals && m.date == dayNumber;
      }
    }
    CalendarDay(day, hasMeals, dayNumber == today, FormatDate(CivilDate(year, month, day)))
  }

  /** Within a month, day `d` is `d - 1` days after the first. */
  lemma {:induction false} DayOffsetInMonth(y: int, m: int, d: int)
    requires d >= 1
    ensures DayNumber(CivilDate(y, m, d)) == DayNumber(CivilDate(y, m, 1)) + d - 1
    decreases d
  {
    if d > 1 {
      DayOffsetInMonth(y, m, d - 1);
      NextDayInMonth(y, m, d - 1);
    }
  }

  /**
   * `calendarData`: one cell per day of the viewed month, in order, marking the
   * days with a logged meal and today; and the weekday the month starts on.
   */
  method CalendarData(year: int, month: int, meals: seq<Meal>, today: int)
    returns (days: seq<CalendarDay>, firstDayOfWeek: int)
    requires 1 <= month <= 12
    ensures |days| == DaysInMonth(year, month)
    ensures firstDayOfWeek == Weekday(DayNumber(CivilDate(year, month, 1)))
    ensures forall k :: 0 <= k < |days| ==> days[k] == CalendarCell(year, month, k + 1, meals, today)
  {
    var daysInMonth := DaysInMonth(year, month);
    firstDayOfWeek := Weekday(DayNumber(CivilDate(year, month, 1)));
    days := [];
    var i := 1;
    while i <= daysInMonth
      invariant 1 <= i <= daysInMonth + 1
      invariant |days| == i - 1
      invariant forall k :: 0 <= k < |days| ==> days[k] == CalendarCell(year, month, k + 1, meals, today)
    {
      days := days + [CalendarCell(year, month, i, meals, today)];
      i := i + 1;
    }
  }

  /** At most one cell of a month is today. */
  lemma OneTodayPerMonth(year: int, month: int, today: int, j: int, k: int)
    requires 1 <= j && 1 <= k
    requires DayNumber(CivilDate(year, month, j)) == today
    requires DayNumber(CivilDate(year, month, k)) == today
    ensures j == k
  {
    DayOffsetInMonth(year, month, j);
    DayOffsetInMonth(year, month, k);
  }

  // ---- Weight progress ----

  /**
   * `progressPercent`: the share of the planned change already made, clamped
   * to [0, 100]. When start and goal coincide the division is by zero: the
   * source gets 100 from +Infinity, 0 from -Infinity and `NaN` (here `None`)
   * when nothing has changed either.
   */
  function ProgressPercent(u: UserProfile): (p: Option<real>)
    ensures p.Some? ==> 0.0 <= p.value <= 100.0
    ensures p.None? <==> u.startWeight == u.goalWeight && u.currentWeight == u.startWeight
  {
    var totalToLose := u.startWeight - u.goalWeight;
    var lostSoFar := u.startWeight - u.currentWeight;
    if totalToLose == 0.0 then
      if lostSoFar > 0.0 then Some(100.0) else if lostSoFar < 0.0 then Some(0.0) else None
    else
      var raw := lostSoFar / totalToLose * 100.0;
      Some(if raw < 0.0 then 0.0 else if raw > 100.0 then 100.0 else raw)
  }

  /** The bar is empty at the start weight and full at the goal. */
  lemma ProgressEnds(u: UserProfile)
    requires u.startWeight != u.goalWeight
    ensures ProgressPercent(u.(currentWeight := u.startWeight)) == Some(0.0)
    ensures ProgressPercent(u.(currentWeight := u.goalWeight)) == Some(100.0)
  {
    var total := u.startWeight - u.goalWeight;
    assert 0.0 / total == 0.0;
    assert total / total == 1.0;
  }

  /** Losing weight towards a lower goal never shrinks the bar. */
  lemma ProgressMonotone(u: UserProfile, lighter: real)
    requires u.goalWeight < u.startWeight && lighter <= u.currentWeight
    ensures ProgressPercent(u).value <= ProgressPercent(u.(currentWeight := lighter)).value
  {
    var total := u.startWeight - u.goalWeight;
    var a, b := u.startWeight - u.currentWeight, u.startWeight - lighter;
    assert b / total - a / total == (b - a) / total;
    assert (b - a) / total >= 0.0;
  }

  // ---- Editors ----

  datatype WeightField = CurrentWeight | GoalWeight | StartWeight

  function WeightOf(u: UserProfile, f: WeightField): real {
    match f
    case CurrentWeight => u.currentWeight
    case GoalWeight => u.goalWeight
    case StartWeight => u.startWeight
  }

  /** The profile with one weight replaced. */
  function WithWeight(u: UserProfile, f: WeightField, v: real): (r: UserProfile)
    ensures WeightOf(r, f) == v
    ensures forall g :: g != f ==> WeightOf(r, g) == WeightOf(u, g)
    ensures r.(currentWeight := u.currentWeight, goalWeight := u.goalWeight, startWeight := u.startWeight) == u
  {
    match f
    case CurrentWeight => u.(currentWeight := v)
    case GoalWeight => u.(goalWeight := v)
    case StartWeight => u.(startWeight := v)
  }

  /** The field a save writes: the one being edited, the current weight when none is recorded. */
  function SavedField(editing: Option<WeightField>): WeightField {
    editing.GetOr(CurrentWeight)
  }

  /** The body-data form: text boxes for age and height, as typed. */
  datatype BodyForm = BodyForm(gender: Gender, age: string, height: string, activityLevel: ActivityLevel)

  /** The age the form shows: 25 in place of a missing (zero) age. */
  function ShownAge(u: UserProfile): int {
    if u.age == 0 then 25 else u.age
  }

  /** The height the form shows: 165 in place of a missing (zero) height. */
  function ShownHeight(u: UserProfile): int {
    if u.height == 0 then 165 else u.height
  }

  /** The form as it opens, its numbers written as text. */
  function FormFor(u: UserProfile): BodyForm {
    BodyForm(u.gender, IntToString(ShownAge(u)), IntToString(ShownHeight(u)), u.activityLevel)
  }

  /** The opened form reads back as the profile with its defaults filled in. */
  lemma FormForReadsBack(u: UserProfile)
    ensures var f := FormFor(u);
      f.gender == u.gender && f.activityLevel == u.activityLevel
      && ParseInt(f.age) == Some(if u.age == 0 then 25 else u.age)
      && ParseInt(f.height) == Some(if u.height == 0 then 165 else u.height)
  {
    ParseIntOfString(ShownAge(u));
    ParseIntOfString(ShownHeight(u));
  }

  /** What saving the form makes of the profile: its four fields when both numbers are positive, else nothing. */
  function ApplyBodyForm(u: UserProfile, f: BodyForm): (r: UserProfile)
    ensures r.(gender := u.gender, age := u.age, height := u.height, activityLevel := u.activityLevel) == u
    ensures r != u ==> r.age > 0 && r.height > 0
    ensures !(ParseInt(f.age).Some? && ParseInt(f.height).Some?
              && ParseInt(f.age).value > 0 && ParseInt(f.height).value > 0)
            ==> r == u
    ensures (match (ParseInt(f.age), ParseInt(f.height))
             case (Some(a), Some(h)) => a > 0 && h > 0
             case _ => false) ==> r.age == ParseInt(f.age).value && r.height == ParseInt(f.height).value
                                  && r.gender == f.gender && r.activityLevel == f.activityLevel
  {
    match (ParseInt(f.age), ParseInt(f.height))
    case (Some(a), Some(h)) =>
      if a > 0 && h > 0 then u.(gender := f.gender, age := a, height := h, activityLevel := f.activityLevel)
      else u
    case _ => u
  }

  /** Opening and saving the body-data form unchanged fills in the defaults for a zero age or height and changes nothing else. */
  lemma OpenAndSaveFillsDefaults(u: UserProfile)
    requires u.age >= 0 && u.height >= 0
    ensures ApplyBodyForm(u, FormFor(u))
         == u.(age := if u.age == 0 then 25 else u.age, height := if u.height == 0 then 165 else u.height)
  {
    FormForReadsBack(u);
  }

  /** The screen's editing state over the stored profile. */
  class ProfileScreen {
    var user: UserProfile
    var editingWeight: Option<WeightField>
    var bodyForm: Option<BodyForm>
    var editingBodyData: bool

    constructor(u: UserProfile)
      ensures user == u && editingWeight.None? && bodyForm.None? && !editingBodyData
    {
      user := u;
      editingWeight := None;
      bodyForm := None;
      editingBodyData := false;
    }

    /** `openWeightModal`: remember which weight is being edited. */
    method OpenWeightModal(f: WeightField)
      modifies this
      ensures editingWeight == Some(f)
      ensures user == old(user) && bodyForm == old(bodyForm) && editingBodyData == old(editingBodyData)
    {
      editingWeight := Some(f);
    }

    /**
     * `saveWeight`: `parsed` is what `parseFloat` reads from the input box
     * (`None` for `NaN`). A positive value replaces the edited weight; the
     * editor closes either way.
     */
    method SaveWeight(parsed: Option<real>)
      modifies this
      ensures user == if parsed.Some? && parsed.value > 0.0
                      then WithWeight(old(user), SavedField(old(editingWeight)), parsed.value)
                      else old(user)
      ensures editingWeight.None?
      ensures bodyForm == old(bodyForm) && editingBodyData == old(editingBodyData)
    {
      if parsed.Some? && parsed.value > 0.0 {
        user := WithWeight(user, SavedField(editingWeight), parsed.value);
      }
      editingWeight := None;
    }

    /** `openBodyDataModal`: the form filled from the profile, with its defaults. */
    method OpenBodyDataModal()
      modifies this
      ensures bodyForm == Some(FormFor(old(user))) && editingBodyData
      ensures user == old(user) && editingWeight == old(editingWeight)
    {
      bodyForm := Some(FormFor(user));
      editingBodyData := true;
    }

    /** The user types into the form. */
    method EditBodyForm(f: BodyForm)
      modifies this
      ensures bodyForm == Some(f)
      ensures user == old(user) && editingWeight == old(editingWeight) && editingBodyData == old(editingBodyData)
    {
      bodyForm := Some(f);
    }

    /**
     * `saveBodyData`: the form's gender, age, height and activity level replace
     * the profile's when `parseInt` gives positive age and height; the editor
     * closes either way (the form itself is kept).
     */
    method SaveBodyData()
      modifies this
      ensures user == if old(bodyForm).Some? then ApplyBodyForm(old(user), old(bodyForm).value) else old(user)
      ensures !editingBodyData
      ensures bodyForm == old(bodyForm) && editingWeight == old(editingWeight)
    {
      if bodyForm.Some? {
        var age := ParseInt(bodyForm.value.age);
        var height := ParseInt(bodyForm.value.height);
        if age.Some? && height.Some? && age.value > 0 && height.value > 0 {
          user := user.(gender := bodyForm.value.gender, age := age.value, height := height.value,
                        activityLevel := bodyForm.value.activityLevel);
        }
      }
      editingBodyData := false;
    }
  }
}
