/**
 * The scan-result screen: the recognition result shown with its confidence
 * and macro chart, edited in place, and turned into a diary entry.
 */
module ScanResult {
  import opened Wrappers
  import opened JsStrings
  import opened JsNumbers
  import opened Types
  import opened MealQueries
  import opened MealService
  import opened MealStorage
  import History

  const UnknownFood: string := "未知食物"

  /**
   * The diary entry built from a recognition result at time `now` (epoch
   * milliseconds): the timestamp, the local day, the clock text and the meal
   * type guessed from the hour all come from `now`; the id comes from a second
   * reading of the clock, `idTime`, taken a moment later. A missing name,
   * calorie count or macro set falls back to "未知食物", 0 and all zeros.
   */
  function MealFromScan(food: ScannedFood, now: int, idTime: int, today: int, hour: int, clockText: string): (m: Meal)
    ensures m.name == if food.name == "" then UnknownFood else food.name
    ensures m.calories == food.calories.GetOr(0.0)
    ensures m.macros == Some(food.macros.GetOr(NoMacros))
    ensures m.image == food.image
    ensures m.mealType == InferMealType(hour)
    ensures m.date == today && m.timestamp == now && m.time == clockText
    ensures ParseInt(m.id) == Some(idTime)
  {
    ParseIntOfString(idTime);
    Meal(IntToString(idTime), if food.name == "" then UnknownFood else food.name, InferMealType(hour), clockText,
         food.calories.GetOr(0.0), food.image, today, now, Some(food.macros.GetOr(NoMacros)))
  }

  /** The entry is one of today's meals, and today's total grows by its calories. */
  lemma ScannedMealCountsToday(meals: seq<Meal>, food: ScannedFood, now: int, idTime: int, today: int, hour: int, clockText: string)
    ensures var m := MealFromScan(food, now, idTime, today, hour, clockText);
      DailyCalories([m] + meals, today) == food.calories.GetOr(0.0) + DailyCalories(meals, today)
  {
    var m := MealFromScan(food, now, idTime, today, hour, clockText);
    AddedMealCounted(meals, m, today);
  }

  /** `handleUpdateFood`'s result: the dialog's name, calories and macros; the rest kept. */
  function UpdateFood(food: ScannedFood, data: History.NutritionData): (r: ScannedFood)
    ensures r.name == data.name && r.calories == Some(data.calories) && r.macros == Some(data.macros)
    ensures r.confidence == food.confidence && r.image == food.image && r.sourceModel == food.sourceModel
  {
    food.(name := data.name, calories := Some(data.calories), macros := Some(data.macros))
  }

  /** An edited result becomes a diary entry carrying the edited values. */
  lemma EditedScanToMeal(food: ScannedFood, data: History.NutritionData, now: int, idTime: int, today: int, hour: int, clockText: string)
    requires data.name != ""
    ensures var m := MealFromScan(UpdateFood(food, data), now, idTime, today, hour, clockText);
      m.name == data.name && m.calories == data.calories && m.macros == Some(data.macros)
  {
  }

  /**
   * The confidence badge: the Chinese word for High, Medium or Low, any other
   * non-empty value as it is, and "中" when the value is missing or empty.
   */
  function ConfidenceLabel(confidence: string): (text: string)
    ensures text != ""
    ensures confidence == "High" ==> text == "高"
    ensures confidence == "Medium" ==> text == "中"
    ensures confidence == "Low" ==> text == "低"
    ensures confidence !in {"High", "Medium", "Low"} && confidence != "" ==> text == confidence
    ensures confidence == "" ==> text == "中"
  {
    if confidence == "High" then "高"
    else if confidence == "Medium" then "中"
    else if confidence == "Low" then "低"
    else if confidence != "" then confidence
    else "中"
  }

  /** The three known levels have three different labels. */
  lemma KnownLevelsDistinct()
    ensures ConfidenceLabel("High") != ConfidenceLabel("Medium")
    ensures ConfidenceLabel("Medium") != ConfidenceLabel("Low")
    ensures ConfidenceLabel("High") != ConfidenceLabel("Low")
  {
  }

  /** The pie chart's protein, carbohydrate and fat values; no macros chart as zeros. */
  function ChartValues(food: ScannedFood): (v: seq<real>)
    ensures |v| == 3
    ensures food.macros.None? ==> v == [0.0, 0.0, 0.0]
    ensures food.macros.Some? ==> v == [food.macros.value.protein, food.macros.value.carbs, food.macros.value.fat]
  {
    var m := food.macros.GetOr(NoMacros);
    [m.protein, m.carbs, m.fat]
  }

  /** The screen's state while a result is on show. */
  class ScanResultScreen {
    var foodData: Option<ScannedFood>
    var isSaving: bool
    var isEditing: bool

    constructor(result: Option<ScannedFood>)
      ensures foodData == result && !isSaving && !isEditing
    {
      foodData := result;
      isSaving := false;
      isEditing := false;
    }

    /** `handleUpdateFood`: apply the dialog's values to the result, and close the dialog. */
    method HandleUpdateFood(data: History.NutritionData)
      modifies this
      ensures foodData == if old(foodData).Some? then Some(UpdateFood(old(foodData).value, data)) else old(foodData)
      ensures !isEditing && isSaving == old(isSaving)
    {
      if foodData.Some? {
        foodData := Some(UpdateFood(foodData.value, data));
      }
      isEditing := false;
    }

    /**
     * `handleAddToDiary`: the entry built from the result goes in front of the
     * store's list (kept as it was when the write fails), saving ends, and the
     * screen moves on to the dashboard. The screen's store need not have
     * finished loading; its list is then written over the stored diary.
     */
    method HandleAddToDiary(store: MealStore, now: int, idTime: int, today: int, hour: int, clockText: string, writeOk: bool)
      requires foodData.Some?
      requires store.Valid()
      modifies this, store
      ensures store.Valid() && store.isLoaded == old(store.isLoaded)
      ensures store.meals == if writeOk then [MealFromScan(old(foodData).value, now, idTime, today, hour, clockText)] + old(store.meals)
                             else old(store.meals)
      ensures store.storage == if writeOk then MealService.Holds(store.meals) else old(store.storage)
      ensures !isSaving && foodData == old(foodData) && isEditing == old(isEditing)
    {
      isSaving := true;
      var meal := MealFromScan(foodData.value, now, idTime, today, hour, clockText);
      store.Add(meal, writeOk);
      isSaving := false;
    }
  }
}
