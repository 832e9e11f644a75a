/**
 * The records the application passes around: diary entries, recognition
 * results and the user's profile. Dates are integer day numbers (see `Dates`);
 * numbers that the source keeps as JavaScript numbers are `real` here, except
 * age and height, which are only ever produced by `parseInt`.
 */
module Types {
  import opened Wrappers

  datatype MealType = Breakfast | Lunch | Dinner | Snack

  datatype Macros = Macros(protein: real, carbs: real, fat: real)

  const NoMacros := Macros(0.0, 0.0, 0.0)

  /** One diary entry. `macros` is optional, as in the stored data. */
  datatype Meal = Meal(
    id: string,
    name: string,
    mealType: MealType,
    time: string,
    calories: real,
    image: string,
    date: int,
    timestamp: int,
    macros: Option<Macros>)

  /**
   * A recognition result as decoded from a model's JSON reply. Fields the reply
   * may omit are optional: a missing name is the empty string, a missing or
   * non-numeric calorie count is `None`.
   */
  datatype ScannedFood = ScannedFood(
    name: string,
    calories: Option<real>,
    confidence: string,
    macros: Option<Macros>,
    image: string,
    sourceModel: Option<string>)

  datatype Gender = Male | Female

  datatype ActivityLevel = Sedentary | Light | Moderate | Active | VeryActive

  datatype UserProfile = UserProfile(
    name: string,
    avatar: string,
    currentWeight: real,
    goalWeight: real,
    startWeight: real,
    gender: Gender,
    age: int,
    height: int,
    activityLevel: ActivityLevel)
}
