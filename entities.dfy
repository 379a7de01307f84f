/** The persisted entities of the app: one row type per Room table.
    Kotlin `Float`/`Double` fields are `real`, `Long` timestamps and `Int`
    counters are `int`, nullable columns are `Option`. */
module Entities {
  import opened Common

  datatype MealType = Breakfast | Lunch | Dinner | Snack

  datatype NutritionGoal = WeightLoss | WeightGain | Maintenance | MuscleGain

  /** A food; nutrients are given per 100 serving units. */
  datatype Food = Food(
    id: string,
    name: string,
    calories: int,
    protein: real,
    carbs: real,
    fat: real,
    fiber: real,
    sugar: real,
    servingSize: real,
    servingUnit: string,
    imageUrl: Option<string>,
    favorite: bool,
    lastUsed: int,
    servingSizeOptions: seq<real>,
    apiId: Option<string>,
    isSynced: bool)

  /** The plan of one day; `date` is the start-of-day timestamp. */
  datatype MealPlan = MealPlan(id: string, date: int, isSynced: bool)

  datatype Meal = Meal(
    id: string,
    mealPlanId: string,
    mealType: MealType,
    time: int,
    name: string,
    notes: string,
    isSynced: bool)

  /** One entry of a meal. Its primary key is the pair (id, mealId); nothing
      forces exactly one of foodId and recipeId to be set. */
  datatype MealItem = MealItem(
    id: string,
    mealId: string,
    foodId: Option<string>,
    recipeId: Option<string>,
    quantity: real,
    servingSize: real,
    isSynced: bool)
  {
    function Key(): (string, string) { (id, mealId) }
  }

  datatype Recipe = Recipe(
    id: string,
    name: string,
    description: string,
    instructions: string,
    preparationTime: int,
    cookingTime: int,
    servings: int,
    imageUrl: Option<string>,
    favorite: bool,
    tags: seq<string>,
    createdAt: int,
    updatedAt: int,
    isSynced: bool)

  datatype RecipeIngredient = RecipeIngredient(
    id: string,
    recipeId: string,
    foodId: string,
    quantity: real,
    unit: string)

  /** The one profile row, stored under UserProfileId. */
  datatype UserProfile = UserProfile(
    id: string,
    name: string,
    age: int,
    gender: string,
    weight: real,
    height: real,
    goal: NutritionGoal,
    activityLevel: int,
    dailyCalorieTarget: int,
    proteinTarget: int,
    carbTarget: int,
    fatTarget: int,
    lastUpdated: int)

  const UserProfileId: string := "user_profile"
}
