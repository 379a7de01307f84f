# Meal planner core, modelled in Dafny

This project models the logic of an Android meal-planning app written in Kotlin:
- **Data layer.** The Room tables of foods, recipes with their ingredients, meal plans, meals and meal items. Their DAOs and repositories are included, together with the type converters of the database and the conversion of food-search API hits into stored foods.
- **Nutrition targets.** The calculator that derives daily calorie and macronutrient targets from a user profile.
- **View models.** The state holders of the meal-plan screen, the recipe editor and the food-search screen, and the validation and parsing of the recipe form.
- **Background work.** The meal-reminder worker and the text and ids of the notifications it posts, the background synchronisation worker, and the settings store.

How the model is built:
- **Tables and state holders are classes.** Each table family is a class whose `map` fields the operations update in place: `FoodStore.FoodTable`, `RecipeStore.RecipeTable` and `MealPlanStore.MealPlanTable`. Each screen's state holder is a class whose fields are its observable values, and so is the settings store.
- **Pure computations are functions.** Id derivation, converters, nutrition targets, percentages, labels and the due-time test are functions, each with lemmas.
- **Loops are methods with invariants.** Examples are the per-meal nutrition totals, the query evaluation, the pairing of ingredients with foods, the reminder scan and the settings import.

Kotlin and JVM semantics are written out explicitly:
- `toInt()` of a float truncates toward zero and clamps to the `Int` range (`Common.Trunc`).
- `Int` `/` and `%` truncate (`Common.Div`, `Common.Rem`).
- `Int` sums, differences and products wrap around (`Common.Wrap32`). This covers the calorie total of a meal, the carbohydrate target, the notification ids and the calorie percentage.
- Room's `REPLACE` is an upsert on the primary key.
- A query without `ORDER BY` is specified up to order: exactly the matching rows, each once.
- `LIKE` follows SQLite, with `%` and `_` as wildcards and ASCII case folding.

Some values the app takes from its environment become parameters:
- the clock;
- fresh UUIDs;
- `String.hashCode()` of a meal id;
- the start-of-day function of the device's calendar, held by `MealPlanStore.MealPlanTable` as `startOfDay`;
- the answer of the food-search API;
- whether a given database call throws.

## Model


| member | source | states |
|---|---|---|
| Common.Trunc | app/src/main/java/com/example/mealplanner/data/repository/UserRepository.kt:42 | `toInt()` of a float always lies in the `Int` range. Inside that range it is the integer toward zero: at most x and within 1 of it for x >= 0, and symmetrically below zero. Beyond the range it is the nearest bound |
| Common.Div | app/src/main/java/com/example/mealplanner/data/repository/UserRepository.kt:60 | JVM `Int` division by a positive divisor truncates toward zero: the remainder it leaves has the sign of the dividend and is smaller than the divisor |
| Common.Rem | app/src/main/java/com/example/mealplanner/notifications/MealReminderWorker.kt:85-97 | JVM `%` by a positive divisor keeps the dividend's sign, is bounded by the divisor, and recombines with `Div` into the dividend |
| Common.Wrap32 | app/src/main/java/com/example/mealplanner/notifications/NotificationHelper.kt:110-113 | the two's-complement wrap-around of an `Int` result lies in the `Int` range, is congruent to the exact value modulo 2^32, and equals it when no overflow happens |
| Common.Wrap32AddWrapped | app/src/main/java/com/example/mealplanner/ui/mealplan/MealDetailsFragment.kt:159 | adding to a wrapped `Int` and wrapping again gives the wrap of the exact sum, so a running `Int` total ends at the wrap of the sum |
| Common.Wrap32Unique | app/src/main/java/com/example/mealplanner/notifications/NotificationHelper.kt:110-113 | two `Int` values congruent modulo 2^32 to the same number are equal, so the wrap-around is unique |
| Common.TrimStart | app/src/main/java/com/example/mealplanner/data/database/Converters.kt:16 | leading whitespace removal keeps a suffix that starts with a non-whitespace character and drops only a blank prefix |
| Common.TrimEnd | app/src/main/java/com/example/mealplanner/data/database/Converters.kt:16 | trailing whitespace removal keeps a prefix that ends with a non-whitespace character and drops only a blank suffix |
| Common.Trim | app/src/main/java/com/example/mealplanner/data/database/Converters.kt:16 | `trim()` leaves a string that neither starts nor ends with whitespace |
| Common.TrimKeepsTrimmed | app/src/main/java/com/example/mealplanner/ui/recipes/AddRecipeFragment.kt:101 | `trim()` is the identity on a string that neither starts nor ends with whitespace |
| Common.TrimKeepsChars | app/src/main/java/com/example/mealplanner/ui/recipes/AddRecipeFragment.kt:101 | trimming only removes characters, never introduces one |
| Common.BlankIffTrimEmpty | app/src/main/java/com/example/mealplanner/data/repository/FoodRepository.kt:31 | `isBlank()` holds exactly when trimming leaves the empty string |
| Common.ToLowerAscii | app/src/main/java/com/example/mealplanner/data/api/ApiModels.kt:64 | an ASCII capital maps to its small letter; every other character is unchanged |
| Common.Lowercase | app/src/main/java/com/example/mealplanner/data/api/ApiModels.kt:64 | `lowercase()` keeps the length and lower-cases each character in place |
| Common.ReplaceSpaces | app/src/main/java/com/example/mealplanner/data/api/ApiModels.kt:64 | `replace(" ", "_")` keeps the length and turns exactly the spaces into underscores |
| Common.Decimal | app/src/main/java/com/example/mealplanner/ui/search/FoodViewModel.kt:121 | the decimal rendering of a non-negative number is a non-empty string of digits |
| Common.DigitsOfDecimal | app/src/main/java/com/example/mealplanner/ui/search/FoodViewModel.kt:121 | the decimal rendering of n reads back as n: printing is injective |
| Converters.Split | app/src/main/java/com/example/mealplanner/data/database/Converters.kt:15 | `split(",")` yields at least one piece and no piece contains a comma |
| Converters.JoinSplit | app/src/main/java/com/example/mealplanner/data/database/Converters.kt:15 | joining the pieces of a split with commas gives the original text back |
| Converters.SplitJoin | app/src/main/java/com/example/mealplanner/data/database/Converters.kt:27 | splitting comma-free pieces joined by commas gives the pieces back |
| Converters.SplitCommaFree | app/src/main/java/com/example/mealplanner/data/database/Converters.kt:15 | a comma-free text splits into itself alone |
| Converters.SplitPrefix | app/src/main/java/com/example/mealplanner/data/database/Converters.kt:15 | a comma-free head followed by a comma splits off as the first piece |
| Converters.RemoveSurrounding | app/src/main/java/com/example/mealplanner/data/database/Converters.kt:14 | `removeSurrounding` strips the two affixes only when both are present at the ends of a string of length at least 2, otherwise returns the string unchanged |
| Converters.CleanPieces | app/src/main/java/com/example/mealplanner/data/database/Converters.kt:16-17 | reading back pieces never yields an empty element and never yields more elements than pieces |
| Converters.DecodeStringList | app/src/main/java/com/example/mealplanner/data/database/Converters.kt:10-21 | null, "" and "[]" decode to the empty list, and no decoded element is empty |
| Converters.EncodeStringList | app/src/main/java/com/example/mealplanner/data/database/Converters.kt:23-31 | the encoding is always bracketed, and it is "[]" exactly for null or the empty list |
| Converters.QuotedJoinNonEmpty | app/src/main/java/com/example/mealplanner/data/database/Converters.kt:27 | the quoted, comma-joined body of a non-empty list has at least two characters |
| Converters.CleanQuoted | app/src/main/java/com/example/mealplanner/data/database/Converters.kt:16-17 | reading back the quoted pieces of non-empty elements gives exactly those elements |
| Converters.CleanQuotedPiece | app/src/main/java/com/example/mealplanner/data/database/Converters.kt:16 | a quoted element, trimmed and unquoted, is the element |
| Converters.TrimQuoted | app/src/main/java/com/example/mealplanner/data/database/Converters.kt:16 | trimming does not touch a quoted element |
| Converters.UnquoteQuoted | app/src/main/java/com/example/mealplanner/data/database/Converters.kt:16 | removing the surrounding quotes of a quoted element gives the element |
| Converters.QuoteShape | app/src/main/java/com/example/mealplanner/data/database/Converters.kt:27 | a quoted element is the element between two double quotes |
| Converters.StringListRoundTrip | app/src/main/java/com/example/mealplanner/data/database/Converters.kt:10-31 | every list of non-empty, comma-free elements survives encode then decode unchanged |
| Converters.CommaElementSplits | app/src/main/java/com/example/mealplanner/data/database/Converters.kt:10-31 | an element holding a comma comes back as two pieces that keep stray quotes |
| Converters.EmptyElementDropped | app/src/main/java/com/example/mealplanner/data/database/Converters.kt:17 | a list holding only the empty string comes back empty |
| Converters.ParseMealType | app/src/main/java/com/example/mealplanner/data/database/Converters.kt:56-64 | a string naming a meal type exactly (case-sensitive) decodes to it; null, "" and every other string decode to BREAKFAST |
| Converters.EncodeMealType | app/src/main/java/com/example/mealplanner/data/database/Converters.kt:66-69 | a meal type is stored as its constant name; null is stored as "BREAKFAST" |
| Converters.MealTypeRoundTrip | app/src/main/java/com/example/mealplanner/data/database/Converters.kt:56-69 | every meal type survives encode then decode |
| Converters.MealTypeFallback | app/src/main/java/com/example/mealplanner/data/database/Converters.kt:58-63 | a lower-case name, the empty string and null all decode to BREAKFAST |
| Converters.ParseGoal | app/src/main/java/com/example/mealplanner/data/database/Converters.kt:71-79 | a string naming a goal exactly decodes to it; anything else decodes to MAINTENANCE |
| Converters.EncodeGoal | app/src/main/java/com/example/mealplanner/data/database/Converters.kt:81-84 | a goal is stored as its constant name; null is stored as "MAINTENANCE" |
| Converters.GoalRoundTrip | app/src/main/java/com/example/mealplanner/data/database/Converters.kt:71-84 | every goal survives encode then decode |
| ApiModels.FoodIdFor | app/src/main/java/com/example/mealplanner/data/api/ApiModels.kt:64 | the stored id is the API id when present, otherwise the name with spaces turned to underscores and ASCII lower-cased, character by character |
| ApiModels.ToFood | app/src/main/java/com/example/mealplanner/data/api/ApiModels.kt:62-79 | the stored food keeps the hit's name, nutrients and image. Calories are truncated, and serving size 100 g is fixed. The serving options are the quantities of the serving-size list, or [100] when the API sends no list. The API id is kept, and the food is unsynced and not a favourite |
| ApiModels.NameDerivedIdsCollide | app/src/main/java/com/example/mealplanner/data/api/ApiModels.kt:64 | two hits without API id named "Ab c" and "ab_c" get the same stored id |
| ApiModels.CaloriesTruncated | app/src/main/java/com/example/mealplanner/data/api/ApiModels.kt:66 | for non-negative reported calories, the stored value never exceeds them. It is less than one below them while they fit an `Int`, and the largest `Int` beyond |
| Nutrition.ActivityMultiplier | app/src/main/java/com/example/mealplanner/data/repository/UserRepository.kt:33-40 | levels 1, 3, 4 and 5 select 1.2, 1.55, 1.725 and 1.9; every other level, 2 included, selects 1.375; the factor always lies in [1.2, 1.9] |
| Nutrition.CreateOrUpdateUserProfile | app/src/main/java/com/example/mealplanner/data/repository/UserRepository.kt:22-78 | the save replaces the single profile row and keeps every other row. The stored profile carries the inputs and the four targets computed by the Harris-Benedict, activity, goal and macro steps |
| Nutrition.FemaleFormulaSelection | app/src/main/java/com/example/mealplanner/data/repository/UserRepository.kt:81-87 | only a case-insensitive "female" selects the 655 formula; "Femme", "Homme" and "" get the 66 formula |
| Nutrition.MaintenanceTruncates | app/src/main/java/com/example/mealplanner/data/repository/UserRepository.kt:42 | for a non-negative BMR, maintenance calories are the BMR times the activity multiplier, truncated toward zero, or the largest `Int` when the product is beyond it |
| Nutrition.GoalOrdering | app/src/main/java/com/example/mealplanner/data/repository/UserRepository.kt:45-50 | for any non-negative `Int` maintenance figure, clamping included: weight loss <= maintenance <= muscle gain <= weight gain |
| Nutrition.ProteinPerKilogram | app/src/main/java/com/example/mealplanner/data/repository/UserRepository.kt:53-57 | protein is the truncation of 2, 1.8 or 1.2 g per kg, or the largest `Int` beyond its range; maintenance and weight gain share the 1.2 rate |
| Nutrition.FatShare | app/src/main/java/com/example/mealplanner/data/repository/UserRepository.kt:59 | fat's energy is at most 30% of a non-negative `Int` calorie target and within one gram of it |
| Nutrition.CarbRemainder | app/src/main/java/com/example/mealplanner/data/repository/UserRepository.kt:60 | carbohydrates are the energy left after protein and fat as an `Int`, which is the exact remainder when it fits and wraps around otherwise, divided by 4 and truncated toward zero |
| Nutrition.EnergyBudget | app/src/main/java/com/example/mealplanner/data/repository/UserRepository.kt:59-60 | when the exact remainder is non-negative and fits an `Int`, the three macros fit in the calorie target. When it fits, carbs are negative exactly when it is at most -4 |
| Nutrition.CarbTargetCanBeNegative | app/src/main/java/com/example/mealplanner/data/repository/UserRepository.kt:59-60 | a 300 kg, 120-year-old profile losing weight gets a carbohydrate target of -9 g |
| Nutrition.HugeWeightWrapsCarbs | app/src/main/java/com/example/mealplanner/data/repository/UserRepository.kt:42-60 | a 2^30 kg profile gaining muscle clamps calories and protein to the largest `Int`, and its overshoot wraps around to a positive carbohydrate target of 375809639 g |
| Nutrition.FemmeGetsMaleBmr | app/src/main/java/com/example/mealplanner/data/repository/UserRepository.kt:81-87 | as written, the profile screen's "Femme" gets 1696 kcal from the male formula instead of the female formula's 1501 |
| Nutrition.BmrIntended | app/src/main/java/com/example/mealplanner/data/repository/UserRepository.kt:81-87 | the corrected BMR uses the female formula for "female" and for the French label, and the written formula otherwise |
| Nutrition.IntendedFormulaForUiLabels | app/src/main/java/com/example/mealplanner/ui/profile/ProfileFragment.kt:89 | with the corrected test "Femme" and "Female" use the female formula, while "Homme" and "Autre" use the male one |
| Queries.StrLessEqTotal | app/src/main/java/com/example/mealplanner/data/database/dao/FoodDao.kt:22 | the BINARY collation compares any two names |
| Queries.StrLessEqTransitive | app/src/main/java/com/example/mealplanner/data/database/dao/FoodDao.kt:22 | the BINARY collation is transitive |
| Queries.InsertSorted | app/src/main/java/com/example/mealplanner/data/database/dao/FoodDao.kt:22 | insertion into an ordered result adds exactly the one row (as a multiset) |
| Queries.InsertSortedKeepsOrder | app/src/main/java/com/example/mealplanner/data/database/dao/FoodDao.kt:22 | inserting into a result sorted by a total preorder keeps it sorted |
| Queries.SelectSorted | app/src/main/java/com/example/mealplanner/data/database/dao/FoodDao.kt:22-23 | `SELECT … WHERE … ORDER BY` returns every matching row exactly once, no other row, in order |
| Queries.Select | app/src/main/java/com/example/mealplanner/data/database/dao/FoodDao.kt:40-41 | `SELECT … WHERE …` without ordering returns every matching row exactly once and no other row |
| Queries.LastWithKey | app/src/main/java/com/example/mealplanner/data/database/dao/FoodDao.kt:13-14 | the row found has the key and is listed; nothing is found exactly when no listed row has the key |
| Queries.UpsertAllLookup | app/src/main/java/com/example/mealplanner/data/database/dao/FoodDao.kt:13-14 | after a bulk REPLACE a key holds the last listed row with that key, or its old row when no listed row has it; the keys are the old ones plus the listed ones |
| Queries.LikeContains | app/src/main/java/com/example/mealplanner/data/database/dao/FoodDao.kt:34-35 | a name matches the query wrapped in `%` signs exactly when a wildcard-free query occurs in it up to ASCII case |
| Queries.LikePercent | app/src/main/java/com/example/mealplanner/data/database/dao/FoodDao.kt:34 | the pattern "%" matches every name, so an empty query matches everything |
| Queries.LikeLeadingPercent | app/src/main/java/com/example/mealplanner/data/database/dao/FoodDao.kt:34 | a leading `%` lets the rest of the pattern match from any position |
| Queries.LikePrefix | app/src/main/java/com/example/mealplanner/data/database/dao/FoodDao.kt:34 | a wildcard-free pattern followed by `%` matches exactly the names that start with it up to ASCII case |
| Queries.UnderscoreMatchesAnyNonEmpty | app/src/main/java/com/example/mealplanner/data/database/dao/FoodDao.kt:34 | a query of "_" matches every non-empty name, since the user's text is not escaped |
| FoodStore.FoodNameLeOrders | app/src/main/java/com/example/mealplanner/data/database/dao/FoodDao.kt:22 | `ORDER BY name` on foods is a total preorder |
| FoodStore.MarkFoodsSynced | app/src/main/java/com/example/mealplanner/data/database/dao/FoodDao.kt:43-44 | the mark keeps the keys, sets the flag of exactly the listed ids and leaves every other field alone |
| FoodStore.DemoFoods | app/src/main/java/com/example/mealplanner/data/repository/FoodRepository.kt:132-159 | the two placeholder foods: their ids, names, calories, macros and fixed serving fields |
| FoodStore.DemoIdsDistinct | app/src/main/java/com/example/mealplanner/data/repository/FoodRepository.kt:134-159 | the two demo ids differ for every query |
| FoodStore.ConvertHits | app/src/main/java/com/example/mealplanner/data/repository/FoodRepository.kt:105-111 | the conversion loop yields exactly the converted hits, in order |
| FoodStore.FoodTable.constructor | app/src/main/java/com/example/mealplanner/data/database/dao/FoodDao.kt:8-45 | the table starts empty |
| FoodStore.FoodTable.FoodById | app/src/main/java/com/example/mealplanner/data/database/dao/FoodDao.kt:25-26 | a food is found exactly when its id is stored, and it is that row |
| FoodStore.FoodTable.InsertFood | app/src/main/java/com/example/mealplanner/data/repository/FoodRepository.kt:46-54 | REPLACE on the id: the food is stored under its id, every other row is kept |
| FoodStore.FoodTable.InsertFoods | app/src/main/java/com/example/mealplanner/data/database/dao/FoodDao.kt:13-14 | the table becomes the bulk upsert of the list |
| FoodStore.FoodTable.UpdateFood | app/src/main/java/com/example/mealplanner/data/repository/FoodRepository.kt:56-64 | `@Update` replaces an existing row and inserts nothing |
| FoodStore.FoodTable.DeleteFood | app/src/main/java/com/example/mealplanner/data/repository/FoodRepository.kt:66-74 | delete by primary key removes exactly that id |
| FoodStore.FoodTable.ToggleFavorite | app/src/main/java/com/example/mealplanner/data/repository/FoodRepository.kt:76-84 | only the favourite field of that one row changes, to the given value |
| FoodStore.FoodTable.GetAllFoods | app/src/main/java/com/example/mealplanner/data/database/dao/FoodDao.kt:22-23 | every food once, sorted by name |
| FoodStore.FoodTable.GetFavoriteFoods | app/src/main/java/com/example/mealplanner/data/database/dao/FoodDao.kt:31-32 | exactly the favourite foods, once each, sorted by name |
| FoodStore.FoodTable.SearchFoods | app/src/main/java/com/example/mealplanner/data/database/dao/FoodDao.kt:34-35 | exactly the foods whose name is LIKE the wrapped query, sorted by name |
| FoodStore.FoodTable.SearchLocalFoods | app/src/main/java/com/example/mealplanner/data/repository/FoodRepository.kt:30-36 | a blank query lists every food, any other the LIKE matches, sorted by name |
| FoodStore.FoodTable.GetUnsyncedFoods | app/src/main/java/com/example/mealplanner/data/repository/FoodRepository.kt:172-179 | exactly the unsynced foods, once each; a read failure yields the empty list |
| FoodStore.FoodTable.MarkFoodsAsSynced | app/src/main/java/com/example/mealplanner/data/repository/FoodRepository.kt:181-188 | the listed ids are marked synced; a write failure is swallowed and changes nothing |
| FoodStore.FoodTable.DemoFoodSearchResults | app/src/main/java/com/example/mealplanner/data/repository/FoodRepository.kt:132-169 | the two demo foods are returned in any case and upserted unless the insert fails |
| FoodStore.FoodTable.SearchFoodsOnline | app/src/main/java/com/example/mealplanner/data/repository/FoodRepository.kt:87-130 | a success without hits returns nothing and stores nothing, and a success with hits returns and stores their conversion. A failed request, or a failed store of the hits, falls back to the demo foods, which are stored unless their own insert fails. Nothing is thrown |
| FoodStore.MarkAllUnsyncedFoods | app/src/main/java/com/example/mealplanner/data/sync/SyncWorker.kt:34-40 | marking the ids of every unsynced food leaves no food unsynced |
| FoodStore.MarkFoodsSyncedIdempotent | app/src/main/java/com/example/mealplanner/data/database/dao/FoodDao.kt:43-44 | marking twice is marking once, and marking no id changes nothing |
| RecipeStore.RecipeNameLeOrders | app/src/main/java/com/example/mealplanner/data/database/dao/RecipeDao.kt:21 | `ORDER BY name` on recipes is a total preorder |
| RecipeStore.WithoutIngredientsOf | app/src/main/java/com/example/mealplanner/data/database/dao/RecipeDao.kt:71-72 | deleting by recipe id removes exactly the rows of that recipe and keeps the others unchanged |
| RecipeStore.MarkRecipesSynced | app/src/main/java/com/example/mealplanner/data/database/dao/RecipeDao.kt:50-51 | the mark keeps the keys and sets the flag of exactly the listed ids |
| RecipeStore.RecipeTable.constructor | app/src/main/java/com/example/mealplanner/data/database/dao/RecipeDao.kt:10-73 | both tables start empty |
| RecipeStore.RecipeTable.RecipeById | app/src/main/java/com/example/mealplanner/data/database/dao/RecipeDao.kt:24-25 | a recipe is found exactly when its id is stored |
| RecipeStore.RecipeTable.InsertIngredients | app/src/main/java/com/example/mealplanner/data/database/dao/RecipeDao.kt:59-60 | the ingredient table becomes the bulk upsert of the list; recipes are untouched |
| RecipeStore.RecipeTable.InsertRecipe | app/src/main/java/com/example/mealplanner/data/repository/RecipeRepository.kt:46-52 | the recipe is upserted. Every ingredient of that recipe id is deleted, then the given list is upserted |
| RecipeStore.RecipeTable.UpdateRecipe | app/src/main/java/com/example/mealplanner/data/repository/RecipeRepository.kt:54-56 | only an existing recipe row is replaced |
| RecipeStore.RecipeTable.AddIngredientToRecipe | app/src/main/java/com/example/mealplanner/data/repository/RecipeRepository.kt:58-60 | REPLACE on the ingredient id |
| RecipeStore.RecipeTable.UpdateIngredient | app/src/main/java/com/example/mealplanner/data/repository/RecipeRepository.kt:62-64 | only an existing ingredient row is replaced |
| RecipeStore.RecipeTable.RemoveIngredientFromRecipe | app/src/main/java/com/example/mealplanner/data/repository/RecipeRepository.kt:66-68 | exactly that ingredient id is removed |
| RecipeStore.RecipeTable.DeleteRecipe | app/src/main/java/com/example/mealplanner/data/repository/RecipeRepository.kt:70-73 | the recipe row and exactly its ingredients are removed |
| RecipeStore.RecipeTable.ToggleFavorite | app/src/main/java/com/example/mealplanner/data/repository/RecipeRepository.kt:75-77 | only that recipe's favourite field changes |
| RecipeStore.RecipeTable.GetAllRecipes | app/src/main/java/com/example/mealplanner/data/database/dao/RecipeDao.kt:21-22 | every recipe once, sorted by name |
| RecipeStore.RecipeTable.GetFavoriteRecipes | app/src/main/java/com/example/mealplanner/data/database/dao/RecipeDao.kt:30-31 | exactly the favourite recipes, sorted by name |
| RecipeStore.RecipeTable.SearchRecipes | app/src/main/java/com/example/mealplanner/data/database/dao/RecipeDao.kt:33-34 | exactly the recipes whose name is LIKE the wrapped query (no blank-query shortcut), sorted by name |
| RecipeStore.RecipeTable.GetIngredientsForRecipe | app/src/main/java/com/example/mealplanner/data/database/dao/RecipeDao.kt:68-69 | exactly that recipe's ingredients, once each |
| RecipeStore.RecipeTable.GetRecipeWithIngredients | app/src/main/java/com/example/mealplanner/data/database/dao/RecipeDao.kt:36-38 | nothing for an unknown id; otherwise the recipe with exactly its ingredients |
| RecipeStore.RecipeTable.GetAllRecipesWithIngredients | app/src/main/java/com/example/mealplanner/data/database/dao/RecipeDao.kt:40-42 | every recipe exactly once, each with exactly its ingredients, each ingredient listed once |
| RecipeStore.RecipeTable.GetUnsyncedRecipes | app/src/main/java/com/example/mealplanner/data/database/dao/RecipeDao.kt:47-48 | exactly the unsynced recipes, once each |
| RecipeStore.RecipeTable.MarkRecipesAsSynced | app/src/main/java/com/example/mealplanner/data/repository/RecipeRepository.kt:84-86 | the listed recipes are marked synced; ingredients are untouched |
| RecipeStore.InsertRecipeReplacesIngredients | app/src/main/java/com/example/mealplanner/data/repository/RecipeRepository.kt:46-52 | with distinct ingredient ids, after the save the recipe's ingredients are exactly the listed ones stamped with its id. Another recipe's ingredient whose id is not listed is kept |
| RecipeStore.NewRecipeGetsNoIngredients | app/src/main/java/com/example/mealplanner/data/repository/RecipeRepository.kt:46-52 | ingredients stamped with recipe id "" and saved with a recipe under a non-empty id leave that recipe with no ingredient |
| RecipeStore.DeleteRecipeCascade | app/src/main/java/com/example/mealplanner/data/repository/RecipeRepository.kt:70-73 | deleting a recipe's ingredients keeps exactly the other recipes' ingredients |
| MealPlanStore.NumericOrders | app/src/main/java/com/example/mealplanner/data/database/dao/MealPlanDao.kt:28-29 | ordering plans by date and meals by time are total preorders |
| MealPlanStore.WithoutItemsOf | app/src/main/java/com/example/mealplanner/data/database/dao/MealPlanDao.kt:79-80 | deleting by meal id removes exactly that meal's items |
| MealPlanStore.MarkPlansSynced | app/src/main/java/com/example/mealplanner/data/database/dao/MealPlanDao.kt:34-35 | keys kept, exactly the listed plans marked |
| MealPlanStore.MarkMealsSynced | app/src/main/java/com/example/mealplanner/data/database/dao/MealPlanDao.kt:58-59 | keys kept, exactly the listed meals marked |
| MealPlanStore.MarkItemsSynced | app/src/main/java/com/example/mealplanner/data/database/dao/MealPlanDao.kt:85-86 | keys kept, every item whose id is listed is marked, whatever its meal |
| MealPlanStore.MealPlanTable.constructor | app/src/main/java/com/example/mealplanner/data/database/dao/MealPlanDao.kt:11-87 | the three tables start empty, with at most one plan per day |
| MealPlanStore.MealPlanTable.MealById | app/src/main/java/com/example/mealplanner/data/repository/MealPlanRepository.kt:47-49 | a meal is found exactly when its id is stored |
| MealPlanStore.MealPlanTable.GetMealPlanForDate | app/src/main/java/com/example/mealplanner/data/repository/MealPlanRepository.kt:24-37 | the plan dated at the start of that day is returned if one exists and nothing changes. Otherwise a new unsynced plan under the fresh id is stored and returned. When the fresh id is unused, at most one plan per day is preserved |
| MealPlanStore.PlanFetchedTwice | app/src/main/java/com/example/mealplanner/data/repository/MealPlanRepository.kt:24-37 | fetching the same day twice with the same fresh id is one fetch: the second finds the plan the first returned or created |
| MealPlanStore.MealPlanTable.GetMealPlansBetweenDates | app/src/main/java/com/example/mealplanner/data/database/dao/MealPlanDao.kt:28-29 | the plans dated within both bounds inclusive, once each, by date |
| MealPlanStore.MealPlanTable.GetMealsForMealPlan | app/src/main/java/com/example/mealplanner/data/database/dao/MealPlanDao.kt:49-50 | exactly the plan's meals, once each, by time |
| MealPlanStore.MealPlanTable.GetMealItemsForMeal | app/src/main/java/com/example/mealplanner/data/database/dao/MealPlanDao.kt:76-77 | exactly the meal's items, once each |
| MealPlanStore.MealPlanTable.AddMealToMealPlan | app/src/main/java/com/example/mealplanner/data/repository/MealPlanRepository.kt:55-71 | one new unsynced meal under the fresh id, whose id is returned; the plan id is not checked |
| MealPlanStore.MealPlanTable.UpdateMeal | app/src/main/java/com/example/mealplanner/data/repository/MealPlanRepository.kt:73-75 | only an existing meal row is replaced |
| MealPlanStore.MealPlanTable.AddItemToMeal | app/src/main/java/com/example/mealplanner/data/repository/MealPlanRepository.kt:77-92 | one new unsynced item under (fresh id, meal id); neither the meal nor the food or recipe is checked |
| MealPlanStore.MealPlanTable.UpdateMealItem | app/src/main/java/com/example/mealplanner/data/repository/MealPlanRepository.kt:94-96 | only an existing item row (composite key) is replaced |
| MealPlanStore.MealPlanTable.RemoveMealItem | app/src/main/java/com/example/mealplanner/data/repository/MealPlanRepository.kt:98-100 | exactly that composite key is removed |
| MealPlanStore.MealPlanTable.DeleteMeal | app/src/main/java/com/example/mealplanner/data/repository/MealPlanRepository.kt:102-105 | the meal and exactly its items are removed; plans untouched |
| MealPlanStore.MealPlanTable.GetUnsyncedMealPlans | app/src/main/java/com/example/mealplanner/data/repository/MealPlanRepository.kt:118-120 | exactly the unsynced plans, once each |
| MealPlanStore.MealPlanTable.GetUnsyncedMeals | app/src/main/java/com/example/mealplanner/data/repository/MealPlanRepository.kt:122-124 | exactly the unsynced meals, once each |
| MealPlanStore.MealPlanTable.GetUnsyncedMealItems | app/src/main/java/com/example/mealplanner/data/repository/MealPlanRepository.kt:126-128 | exactly the unsynced items, once each |
| MealPlanStore.MealPlanTable.MarkMealPlansAsSynced | app/src/main/java/com/example/mealplanner/data/repository/MealPlanRepository.kt:130-132 | the listed plans are marked; meals and items untouched |
| MealPlanStore.MealPlanTable.MarkMealsAsSynced | app/src/main/java/com/example/mealplanner/data/repository/MealPlanRepository.kt:134-136 | the listed meals are marked; plans and items untouched |
| MealPlanStore.MealPlanTable.MarkMealItemsAsSynced | app/src/main/java/com/example/mealplanner/data/repository/MealPlanRepository.kt:138-140 | the listed item ids are marked; plans and meals untouched |
| MealPlanStore.SameDaySamePlan | app/src/main/java/com/example/mealplanner/data/repository/MealPlanRepository.kt:24-37 | two requests for instants of the same day return the same plan and create at most one |
| MealPlanStore.DeleteMealCascade | app/src/main/java/com/example/mealplanner/data/repository/MealPlanRepository.kt:102-105 | deleting a meal's items keeps exactly the other meals' items |
| MealPlanStore.ItemIdMarksEveryMeal | app/src/main/java/com/example/mealplanner/data/database/dao/MealPlanDao.kt:85-86 | an item id shared by two meals is marked synced in both |
| MealValuation.ResolveItem | app/src/main/java/com/example/mealplanner/ui/mealplan/MealPlanViewModel.kt:139-173 | a set food id wins and resolves exactly when the food exists; otherwise a recipe id resolves exactly when the recipe exists; neither gives nothing. A resolved entry carries the item, its food or recipe, and its name and calories |
| MealValuation.Resolve | app/src/main/java/com/example/mealplanner/ui/mealplan/MealPlanViewModel.kt:139-174 | the resolved list keeps the item order and drops only items; each entry is the resolution of its item |
| MealValuation.ResolveKeepsResolvable | app/src/main/java/com/example/mealplanner/ui/mealplan/MealPlanViewModel.kt:139-174 | no item whose food or recipe exists is lost |
| MealValuation.ResolveNoDuplicates | app/src/main/java/com/example/mealplanner/ui/mealplan/MealPlanViewModel.kt:139-174 | a list of distinct items resolves to distinct entries |
| MealValuation.UnresolvedItemIsDropped | app/src/main/java/com/example/mealplanner/ui/mealplan/MealPlanViewModel.kt:151-154 | an item whose food or recipe is missing contributes nothing, wherever it sits |
| MealValuation.ResolveByHead | app/src/main/java/com/example/mealplanner/ui/mealplan/MealPlanViewModel.kt:151-154 | resolving a list depends only on its first item and on what the rest resolves to |
| MealValuation.UpdateNutritionInfo | app/src/main/java/com/example/mealplanner/ui/mealplan/MealDetailsFragment.kt:151-175 | calories are the sum of the per-entry truncated calories, kept in an `Int` that wraps around, so they equal the exact sum whenever it fits. Each macro is the truncation of the sum over food entries of the nutrient times the serving ratio. The no-food marker is shown exactly for an empty list |
| MealValuation.SumCaloriesAppend | app/src/main/java/com/example/mealplanner/ui/mealplan/MealDetailsFragment.kt:151-175 | the calorie total is additive over a split of the list |
| MealValuation.RecipeEntriesAddNoMacros | app/src/main/java/com/example/mealplanner/ui/mealplan/MealDetailsFragment.kt:151-175 | recipe entries add no protein, carbohydrate or fat |
| MealValuation.MacroTotalsNonNegative | app/src/main/java/com/example/mealplanner/ui/mealplan/MealDetailsFragment.kt:151-175 | with non-negative quantities, sizes and nutrients every macro total is non-negative |
| MealValuation.BananaCalories | app/src/main/java/com/example/mealplanner/ui/mealplan/MealPlanViewModel.kt:364-367 | 150 g of an 89 kcal/100 g food is 133 kcal, truncated and not rounded |
| MealValuation.RecipeCaloriesIgnoreRecipe | app/src/main/java/com/example/mealplanner/ui/mealplan/MealPlanViewModel.kt:370-374 | recipe calories depend only on the servings, 500 per serving |
| MealValuation.MissingFoodExcludedFromTotal | app/src/main/java/com/example/mealplanner/ui/mealplan/MealPlanViewModel.kt:139-154 | a meal with a known food and an item whose food is gone totals only the known food |
| MealValuation.MacrosTruncatedOnceAfterSumming | app/src/main/java/com/example/mealplanner/ui/mealplan/MealDetailsFragment.kt:151-175 | macros are summed before truncation while calories are truncated per entry, so two halves give 1 g of protein |
| MealValuation.FindMeal | app/src/main/java/com/example/mealplanner/ui/mealplan/MealDetailsFragment.kt:94 | `find` returns the first meal with that id, and nothing exactly when no meal has it |
| MealPlanViewModel.FindShownItem | app/src/main/java/com/example/mealplanner/ui/mealplan/MealPlanViewModel.kt:339-340 | `find` returns the item of the first shown entry with that id, and nothing exactly when none has it |
| MealPlanViewModel.MealPlanScreen.constructor | app/src/main/java/com/example/mealplanner/ui/mealplan/MealPlanViewModel.kt:82-86 | the screen starts on today's date with no meal selected and no message. It shows today's plan as fetched, which is the only plan of that day when there is one per day, and exactly that plan's meals, each once and ordered by time. Meals and items are unchanged |
| MealPlanViewModel.MealPlanScreen.LoadMealPlanForSelectedDate | app/src/main/java/com/example/mealplanner/ui/mealplan/MealPlanViewModel.kt:88-115 | the current plan is the selected day's plan as fetched: the existing one with no table change, or a new one under the fresh id. With one plan per day it is the only plan of that day. The meals shown are exactly that plan's meals, each once and ordered by time. Meals, items, date, selection and shown items are unchanged |
| MealPlanViewModel.MealPlanScreen.SelectDate | app/src/main/java/com/example/mealplanner/ui/mealplan/MealPlanViewModel.kt:82-86 | the date is stored, the day's plan is fetched as by the load and becomes current, and its meals are shown each once and ordered by time. Selection, shown items and message are kept |
| MealPlanViewModel.MealPlanScreen.LoadMealItems | app/src/main/java/com/example/mealplanner/ui/mealplan/MealPlanViewModel.kt:127-182 | the items shown are exactly the resolvable items of that meal, each resolved and shown once. No table changes and the rest of the screen is kept |
| MealPlanViewModel.MealPlanScreen.SelectMeal | app/src/main/java/com/example/mealplanner/ui/mealplan/MealPlanViewModel.kt:117-125 | a meal id is stored and its items loaded; null clears the items |
| MealPlanViewModel.MealPlanScreen.AddMeal | app/src/main/java/com/example/mealplanner/ui/mealplan/MealPlanViewModel.kt:184-211 | one new meal under the fresh id, in the current plan, or in the selected day's plan when none is current. The new meal is selected and its items shown, and the success message is set. The day is reloaded as by the load, taking the first fetch into account. With one plan per day and a current plan still dated on the selected day, the new meal is among those shown |
| MealPlanViewModel.MealPlanScreen.UpdateMeal | app/src/main/java/com/example/mealplanner/ui/mealplan/MealPlanViewModel.kt:213-241 | an existing meal gets the new type, time, name and notes and becomes unsynced. The update message is set and the day is reloaded as by the load. An unknown id says "Repas non trouvé" and changes no table, plan or shown meal. The date, selection and shown items are kept either way |
| MealPlanViewModel.MealPlanScreen.DeleteMeal | app/src/main/java/com/example/mealplanner/ui/mealplan/MealPlanViewModel.kt:243-265 | an existing meal and its items are removed, the selection and shown items cleared, the message set and the day reloaded as by the load. An unknown id says "Repas non trouvé" and changes no table, plan, shown meal, selection or shown item |
| MealPlanViewModel.MealPlanScreen.AddFoodToMeal | app/src/main/java/com/example/mealplanner/ui/mealplan/MealPlanViewModel.kt:267-288 | one food item without recipe id is added and that meal's resolvable items are shown, each once. The date, plan, shown meals and selection are kept |
| MealPlanViewModel.MealPlanScreen.AddRecipeToMeal | app/src/main/java/com/example/mealplanner/ui/mealplan/MealPlanViewModel.kt:290-311 | one recipe item is added, its quantity the servings and its serving size 1, and that meal's resolvable items are shown, each once. The date, plan, shown meals and selection are kept |
| MealPlanViewModel.MealPlanScreen.UpdateMealItem | app/src/main/java/com/example/mealplanner/ui/mealplan/MealPlanViewModel.kt:313-333 | only quantity and serving size change and the item becomes unsynced. With a selected meal, its resolvable items are shown each once; with none, the shown items are kept. The date, plan, shown meals and selection are kept |
| MealPlanViewModel.MealPlanScreen.DeleteMealItem | app/src/main/java/com/example/mealplanner/ui/mealplan/MealPlanViewModel.kt:335-357 | only an item currently shown can be removed, and then the selected meal's resolvable items are shown each once. Otherwise "Item non trouvé", no table change and the shown items are kept. The date, plan, shown meals and selection are kept |
| MealPlanViewModel.MealPlanScreen.ClearMessage | app/src/main/java/com/example/mealplanner/ui/mealplan/MealPlanViewModel.kt:359-361 | the message is cleared and nothing else changes |
| RecipeViewModel.WithFoods | app/src/main/java/com/example/mealplanner/ui/recipes/RecipeViewModel.kt:164-175 | the pairs keep the ingredients' order and drop only ingredients; each pairs an ingredient with its stored food |
| RecipeViewModel.WithFoodsKeepsKnownFoods | app/src/main/java/com/example/mealplanner/ui/recipes/RecipeViewModel.kt:166-173 | no ingredient whose food exists is lost |
| RecipeViewModel.PairWithFoods | app/src/main/java/com/example/mealplanner/ui/recipes/RecipeViewModel.kt:164-175 | the loop computes exactly the paired list |
| RecipeViewModel.RecipeEditor.constructor | app/src/main/java/com/example/mealplanner/ui/recipes/RecipeViewModel.kt:40-50 | no query, message, selection or temporary ingredient |
| RecipeViewModel.RecipeEditor.SearchRecipes | app/src/main/java/com/example/mealplanner/ui/recipes/RecipeViewModel.kt:52-54 | only the query is stored |
| RecipeViewModel.RecipeEditor.ClearMessage | app/src/main/java/com/example/mealplanner/ui/recipes/RecipeViewModel.kt:56-58 | only the message is cleared |
| RecipeViewModel.RecipeEditor.SelectRecipe | app/src/main/java/com/example/mealplanner/ui/recipes/RecipeViewModel.kt:60-62 | only the selection is set |
| RecipeViewModel.RecipeEditor.ClearSelectedRecipe | app/src/main/java/com/example/mealplanner/ui/recipes/RecipeViewModel.kt:64-67 | no selection and no temporary ingredients |
| RecipeViewModel.RecipeEditor.ToggleFavorite | app/src/main/java/com/example/mealplanner/ui/recipes/RecipeViewModel.kt:71-75 | only that recipe's favourite field changes |
| RecipeViewModel.RecipeEditor.AddTempIngredient | app/src/main/java/com/example/mealplanner/ui/recipes/RecipeViewModel.kt:92-110 | for a known food, one ingredient is appended, stamped with the selection or "". An unknown food says "Aliment introuvable" and appends nothing |
| RecipeViewModel.RecipeEditor.RemoveTempIngredient | app/src/main/java/com/example/mealplanner/ui/recipes/RecipeViewModel.kt:112-117 | an in-range index removes exactly that element, any other index changes nothing |
| RecipeViewModel.RecipeEditor.SaveRecipe | app/src/main/java/com/example/mealplanner/ui/recipes/RecipeViewModel.kt:119-155 | as written: the recipe is saved under the selected or a fresh id with the temporary ingredients as they are, the editor is cleared and the query kept |
| RecipeViewModel.RecipeEditor.SaveRecipeRestamped | app/src/main/java/com/example/mealplanner/ui/recipes/RecipeViewModel.kt:119-155 | corrected: the temporary ingredients are stamped with the saved id before the insert; the editor is cleared and the query kept |
| RecipeViewModel.RecipeEditor.LoadRecipeIngredientsForEdit | app/src/main/java/com/example/mealplanner/ui/recipes/RecipeViewModel.kt:157-183 | for a known recipe the temporary list is its ingredients, each once, whose food exists, each paired with its food. An unknown recipe changes nothing |
| RecipeViewModel.RecipeEditor.DeleteRecipe | app/src/main/java/com/example/mealplanner/ui/recipes/RecipeViewModel.kt:190-204 | a known recipe and its ingredients are deleted with a success message; an unknown one says "Recette introuvable". The query, selection and temporary ingredients are kept |
| RecipeViewModel.RestampedSaveKeepsIngredients | app/src/main/java/com/example/mealplanner/ui/recipes/RecipeViewModel.kt:145-147 | with restamping, the saved recipe owns exactly the listed ingredients |
| RecipeViewModel.SaveClearsFavorite | app/src/main/java/com/example/mealplanner/ui/recipes/RecipeViewModel.kt:132-143 | saving an edited favourite recipe keeps its id but rewrites it as not favourite, with its creation time reset to the save time |
| AddRecipeForm.ValidateInputs | app/src/main/java/com/example/mealplanner/ui/recipes/AddRecipeFragment.kt:74-90 | a blank name fails with the name error and leaves the instructions' error as it was. Otherwise the name error is cleared and blank instructions fail with their error. The form is valid exactly when neither is blank |
| AddRecipeForm.ParseInt | app/src/main/java/com/example/mealplanner/ui/recipes/AddRecipeFragment.kt:96-98 | `toIntOrNull` only yields values in the `Int` range and rejects "", "-" and "+" |
| AddRecipeForm.IntOrDefault | app/src/main/java/com/example/mealplanner/ui/recipes/AddRecipeFragment.kt:96-98 | the parsed value, or the default when the text does not parse |
| AddRecipeForm.TrimmedTags | app/src/main/java/com/example/mealplanner/ui/recipes/AddRecipeFragment.kt:99-102 | every kept tag is non-empty and trimmed |
| AddRecipeForm.TrimmedTagsCommaFree | app/src/main/java/com/example/mealplanner/ui/recipes/AddRecipeFragment.kt:99-102 | trimming comma-free pieces leaves comma-free tags |
| AddRecipeForm.ParseTags | app/src/main/java/com/example/mealplanner/ui/recipes/AddRecipeFragment.kt:99-102 | every tag is non-empty, comma-free and trimmed |
| AddRecipeForm.ReadForm | app/src/main/java/com/example/mealplanner/ui/recipes/AddRecipeFragment.kt:92-113 | the texts are passed through; times default to 0 and servings to 1 when unparseable; tags are the parsed tags |
| AddRecipeForm.ParseDecimal | app/src/main/java/com/example/mealplanner/ui/recipes/AddRecipeFragment.kt:96 | every non-negative `Int` printed in decimal parses back to itself |
| AddRecipeForm.ParseNegativeDecimal | app/src/main/java/com/example/mealplanner/ui/recipes/AddRecipeFragment.kt:96 | every negative `Int`, the smallest included, parses from its sign and digits |
| AddRecipeForm.OverflowFallsBack | app/src/main/java/com/example/mealplanner/ui/recipes/AddRecipeFragment.kt:98 | one past the `Int` range falls back to the default; the largest `Int` does not |
| AddRecipeForm.PaddedNumberFallsBack | app/src/main/java/com/example/mealplanner/ui/recipes/AddRecipeFragment.kt:96 | a number with a leading space falls back to the default |
| AddRecipeForm.TagsRoundTrip | app/src/main/java/com/example/mealplanner/ui/recipes/AddRecipeFragment.kt:99-102 | parsed tags survive the string-list column unchanged |
| AddRecipeForm.ParseJoinedTags | app/src/main/java/com/example/mealplanner/ui/recipes/AddRecipeFragment.kt:99-102 | typing back the tags joined by commas gives the same tags |
| Notifications.MealTypeLabel | app/src/main/java/com/example/mealplanner/notifications/NotificationHelper.kt:75-80 | each meal type has its French label, and each label belongs to one type |
| Notifications.IntText | app/src/main/java/com/example/mealplanner/notifications/NotificationHelper.kt:135 | an `Int` is rendered as its digits, with a minus sign when negative |
| Notifications.NotificationId | app/src/main/java/com/example/mealplanner/notifications/NotificationHelper.kt:110 | the id is 1000 plus the hash, and it wraps to a negative id when the sum overflows |
| Notifications.ReminderContent | app/src/main/java/com/example/mealplanner/notifications/NotificationHelper.kt:83-87 | the meal's name, or a sentence naming its type when the name is empty; never empty |
| Notifications.ShowMealReminder | app/src/main/java/com/example/mealplanner/notifications/NotificationHelper.kt:62-118 | the reminder's id, title and text. The content and mark-eaten request codes are the hash, the snooze code is hash + 1 (wrapped), and the snooze delay is 15 minutes |
| Notifications.CancelMealNotificationId | app/src/main/java/com/example/mealplanner/notifications/NotificationHelper.kt:194-196 | cancelling a meal targets the id its reminder was posted under |
| Notifications.ActionCodesDiffer | app/src/main/java/com/example/mealplanner/notifications/NotificationHelper.kt:167-192 | the mark-eaten and snooze codes never coincide; the snooze code is hash + 1, or the smallest `Int` for the largest hash |
| Notifications.CancelAllReaches | app/src/main/java/com/example/mealplanner/notifications/NotificationHelper.kt:198-204 | cancelling all reminders removes a reminder exactly when its hash is in 0..999 |
| Notifications.NegativeHashSurvivesCancelAll | app/src/main/java/com/example/mealplanner/notifications/NotificationHelper.kt:198-204 | a meal whose id hashes to -1 is posted as 999 and survives cancelling all |
| Notifications.CaloriesPercentage | app/src/main/java/com/example/mealplanner/notifications/NotificationHelper.kt:126 | 0 for a non-positive target; without overflow the integer percentage p satisfies p·t <= 100·c < (p+1)·t |
| Notifications.SummaryTitle | app/src/main/java/com/example/mealplanner/notifications/NotificationHelper.kt:128-133 | the title by the first threshold reached: 100, 80, 50, else the encouragement |
| Notifications.SummaryContent | app/src/main/java/com/example/mealplanner/notifications/NotificationHelper.kt:135 | the summary text starts with "Calories: " |
| Notifications.IntTextInjective | app/src/main/java/com/example/mealplanner/notifications/NotificationHelper.kt:135 | different `Int`s render as different texts |
| Notifications.SummaryContentDeterminesNumbers | app/src/main/java/com/example/mealplanner/notifications/NotificationHelper.kt:135 | the summary text shows the four numbers in order after their labels: two summaries are equal only when all four numbers are |
| Notifications.PercentageAtLeast | app/src/main/java/com/example/mealplanner/notifications/NotificationHelper.kt:126 | without overflow the percentage reaches k exactly when 100·consumed reaches k·target |
| Notifications.SummaryTitleOfCalories | app/src/main/java/com/example/mealplanner/notifications/NotificationHelper.kt:126-133 | each title holds exactly in its band of consumed/target: >= 1, [0.8, 1), [0.5, 0.8), < 0.5 |
| Notifications.WrappedPercentage | app/src/main/java/com/example/mealplanner/notifications/NotificationHelper.kt:126 | 21474837 kcal over a 2000 target wraps to a negative percentage and shows the encouragement title |
| MealReminders.TimeOfDay | app/src/main/java/com/example/mealplanner/notifications/MealReminderWorker.kt:87-88 | the time of day of an instant: in [0, day) for non-negative instants and in (-day, 0] before the epoch |
| MealReminders.TimeOfDayOffset | app/src/main/java/com/example/mealplanner/notifications/MealReminderWorker.kt:87-88 | the time of day of day·d + offset is the offset |
| MealReminders.DueByOffsets | app/src/main/java/com/example/mealplanner/notifications/MealReminderWorker.kt:87-93 | whatever the days, a meal is due exactly when the two offsets are at most 15 minutes apart |
| MealReminders.NoWrapAroundMidnight | app/src/main/java/com/example/mealplanner/notifications/MealReminderWorker.kt:87-93 | 23:55 and 00:05 of the next day are ten minutes apart, yet the meal is not due |
| MealReminders.WindowBoundary | app/src/main/java/com/example/mealplanner/notifications/MealReminderWorker.kt:87-93 | exactly 15 minutes is due, one millisecond more is not |
| MealReminders.DueMeals | app/src/main/java/com/example/mealplanner/notifications/MealReminderWorker.kt:85-97 | exactly the due meals of the list |
| MealReminders.RemindDue | app/src/main/java/com/example/mealplanner/notifications/MealReminderWorker.kt:85-97 | the loop over today's meals reminds exactly the due meals, in the order the query returned them |
| MealReminders.CheckTodaysMeals | app/src/main/java/com/example/mealplanner/notifications/MealReminderWorker.kt:71-101 | reminds exactly the due meals of today's plan, creating the plan if needed; the plan's date is the start of the start of now's day. A failed plan lookup or creation changes nothing. A failed meal query comes after the plan is fetched or created. Either failure is caught and reminds nothing |
| MealReminders.HandleSpecificMealReminder | app/src/main/java/com/example/mealplanner/notifications/MealReminderWorker.kt:52-69 | reminds the meal of today's plan with that id exactly when there is one, at most one reminder. Its two database failures are caught as in `CheckTodaysMeals` |
| MealReminders.DoWork | app/src/main/java/com/example/mealplanner/notifications/MealReminderWorker.kt:27-50 | today's plan is fetched or created as in the two checks. Without failures, a meal id reminds that meal exactly when today's plan holds it, and no id reminds exactly the due meals of today's plan. Every reminded meal belongs to today's plan, either database failure reminds nothing, and only a failure to reschedule asks for a retry |
| Settings.GetBoolean | app/src/main/java/com/example/mealplanner/utils/SettingsManager.kt:24 | the default for a missing key, the stored value for a boolean, and a type error for anything else |
| Settings.GetInt | app/src/main/java/com/example/mealplanner/utils/SettingsManager.kt:34 | the default for a missing key, the stored value for an integer, and a type error for anything else |
| Settings.Read | app/src/main/java/com/example/mealplanner/utils/SettingsManager.kt:23-45 | the five getters with their defaults: true, true, 0, true, true |
| Settings.KeysDistinct | app/src/main/java/com/example/mealplanner/utils/SettingsManager.kt:15-19 | the five keys are distinct |
| Settings.Export | app/src/main/java/com/example/mealplanner/utils/SettingsManager.kt:51-58 | the export succeeds exactly when the four exported getters succeed. It maps exactly the four keys, not the first-launch key, to the getters' values |
| Settings.Imported | app/src/main/java/com/example/mealplanner/utils/SettingsManager.kt:60-72 | exactly the entries of a storable type are written, each with its own value |
| Settings.ImportExportRoundTrip | app/src/main/java/com/example/mealplanner/utils/SettingsManager.kt:51-72 | importing what was exported changes no getter's result |
| Settings.WrongTypeBreaksGetter | app/src/main/java/com/example/mealplanner/utils/SettingsManager.kt:60-72 | an integer imported under a boolean key is accepted and breaks that getter and the export |
| Settings.SettingsManager.constructor | app/src/main/java/com/example/mealplanner/utils/SettingsManager.kt:10-13 | the manager reads the given preferences file |
| Settings.SettingsManager.SetNotificationsEnabled | app/src/main/java/com/example/mealplanner/utils/SettingsManager.kt:25 | that one getter now returns the value; the others are unchanged |
| Settings.SettingsManager.SetMealRemindersEnabled | app/src/main/java/com/example/mealplanner/utils/SettingsManager.kt:30 | that one getter now returns the value; the others are unchanged |
| Settings.SettingsManager.SetReminderAdvanceMinutes | app/src/main/java/com/example/mealplanner/utils/SettingsManager.kt:35 | that one getter now returns the value; the others are unchanged |
| Settings.SettingsManager.SetNutritionSummaryEnabled | app/src/main/java/com/example/mealplanner/utils/SettingsManager.kt:40 | that one getter now returns the value; the others are unchanged |
| Settings.SettingsManager.SetIsFirstLaunch | app/src/main/java/com/example/mealplanner/utils/SettingsManager.kt:45 | that one getter now returns the value; the others are unchanged |
| Settings.SettingsManager.ResetAllSettings | app/src/main/java/com/example/mealplanner/utils/SettingsManager.kt:47-49 | the store is cleared, so every getter returns its default |
| Settings.SettingsManager.ImportSettings | app/src/main/java/com/example/mealplanner/utils/SettingsManager.kt:60-72 | the editor loop writes exactly the storable entries over the old preferences |
| Settings.ExportThenImport | app/src/main/java/com/example/mealplanner/utils/SettingsManager.kt:51-72 | export followed by import leaves every getter as it was |
| Sync.MarkUnsyncedFoods | app/src/main/java/com/example/mealplanner/data/sync/SyncWorker.kt:34-40 | marking the ids of exactly the unsynced foods syncs the whole food table |
| Sync.MarkUnsyncedRecipes | app/src/main/java/com/example/mealplanner/data/sync/SyncWorker.kt:43-47 | the same for recipes |
| Sync.MarkUnsyncedPlans | app/src/main/java/com/example/mealplanner/data/sync/SyncWorker.kt:50-54 | the same for meal plans |
| Sync.MarkUnsyncedMeals | app/src/main/java/com/example/mealplanner/data/sync/SyncWorker.kt:57-61 | the same for meals |
| Sync.MarkUnsyncedItems | app/src/main/java/com/example/mealplanner/data/sync/SyncWorker.kt:64-68 | the same for meal items |
| Sync.SyncFoods | app/src/main/java/com/example/mealplanner/data/sync/SyncWorker.kt:34-40 | the food pass syncs every food unless its read or write fails, which is swallowed and changes nothing |
| Sync.SyncRecipes | app/src/main/java/com/example/mealplanner/data/sync/SyncWorker.kt:43-47 | the recipe pass syncs every recipe, or fails and changes nothing |
| Sync.SyncPlans | app/src/main/java/com/example/mealplanner/data/sync/SyncWorker.kt:50-54 | the plan pass syncs every plan, or fails and changes nothing |
| Sync.SyncMeals | app/src/main/java/com/example/mealplanner/data/sync/SyncWorker.kt:57-61 | the meal pass syncs every meal, or fails and changes nothing |
| Sync.SyncItems | app/src/main/java/com/example/mealplanner/data/sync/SyncWorker.kt:64-68 | the item pass syncs every item, or fails and changes nothing |
| Sync.DoWork | app/src/main/java/com/example/mealplanner/data/sync/SyncWorker.kt:29-76 | the run succeeds exactly when no recipe, plan, meal or item pass throws. The food pass syncs every food unless its read or write fails, an error that is swallowed. Each later pass before the throwing one syncs its table, and the throwing pass and those after it change nothing. Ingredients are never touched |
| Sync.SyncOnlyFlipsFlags | app/src/main/java/com/example/mealplanner/data/sync/SyncWorker.kt:29-76 | for each of the five passes (foods, recipes, plans, meals, items), syncing sets every flag, keeps every key and every other field, and is idempotent |
| Sync.SyncedTableIsFixed | app/src/main/java/com/example/mealplanner/data/sync/SyncWorker.kt:34-40 | a table with every food synced is left as it is |
| Sync.SecondRunChangesNothing | app/src/main/java/com/example/mealplanner/data/sync/SyncWorker.kt:29-76 | two failure-free runs in a row leave all five tables as the first run does: every row synced, nothing else changed |
| FoodViewModel.CustomFood | app/src/main/java/com/example/mealplanner/ui/search/FoodViewModel.kt:107-143 | the hand-entered food: the derived id, the given values, a single serving option, unsynced, not a favourite |
| FoodViewModel.FoodSearchScreen.constructor | app/src/main/java/com/example/mealplanner/ui/search/FoodViewModel.kt:24-46 | empty query and results, not loading, no message |
| FoodViewModel.FoodSearchScreen.ShowMessage | app/src/main/java/com/example/mealplanner/ui/search/FoodViewModel.kt:80-87 | a message is shown when it differs from the last one or more than 3 s have passed, and then it is remembered with the time; otherwise nothing changes |
| FoodViewModel.FoodSearchScreen.ClearMessage | app/src/main/java/com/example/mealplanner/ui/search/FoodViewModel.kt:89-93 | the message and the throttle's memory are cleared |
| FoodViewModel.FoodSearchScreen.SearchFoods | app/src/main/java/com/example/mealplanner/ui/search/FoodViewModel.kt:48-77 | the query is always stored. An online search runs only when asked for with a non-empty query; otherwise nothing else changes. The results are the converted hits, stored, or the demo foods when the request or the hits' store fails, stored unless their own insert fails. They are empty exactly when the service answered without hints, and the "no result" message then goes through the throttle; otherwise the message fields are kept. Loading ends false |
| FoodViewModel.FoodSearchScreen.ToggleFavorite | app/src/main/java/com/example/mealplanner/ui/search/FoodViewModel.kt:95-105 | asks for the negation of the caller's flag and keeps the message fields; a failure changes no food and sends the error through the throttle. Query, loading flag and results are kept |
| FoodViewModel.FoodSearchScreen.AddCustomFood | app/src/main/java/com/example/mealplanner/ui/search/FoodViewModel.kt:107-143 | the built food is upserted and the success message goes through the throttle; a failure stores nothing and sends the prefixed error text through it. Query, loading flag and results are kept |
| FoodViewModel.FoodSearchScreen.AddCustomFoodDirect | app/src/main/java/com/example/mealplanner/ui/search/FoodViewModel.kt:146-160 | the food is inserted only when no food has its id; every failure is swallowed |
| FoodViewModel.AddCustomFoodDirectTwice | app/src/main/java/com/example/mealplanner/ui/search/FoodViewModel.kt:146-160 | calling it twice is calling it once |
| FoodViewModel.ThrottleWindow | app/src/main/java/com/example/mealplanner/ui/search/FoodViewModel.kt:80-87 | within 3 s the same message is not shown again; after 3 s it is, and a different message always is |
| FoodViewModel.CustomIdsDifferInTime | app/src/main/java/com/example/mealplanner/ui/search/FoodViewModel.kt:121 | the same name entered at two different times gets two different ids |
| FoodViewModel.CustomIdsCollideOnSpaces | app/src/main/java/com/example/mealplanner/ui/search/FoodViewModel.kt:121 | "a b" and "a_b" entered in the same millisecond get the same id |

## Left out

- Android plumbing is not modelled. This covers Flow, LiveData and StateFlow observation, coroutines and their interleavings, logging, fragments, adapters, toasts and their own throttles, intents, pending intents, channels and the notification builder. Each launched coroutine body is one sequential method.
- The Retrofit call and the check for unconfigured API keys in `FoodRepository.searchFoodsOnline` are not modelled. The service's answer is a parameter: no answer, an error status, or a success with or without hints.
- The worker scheduling and `NotificationReceiver` are not modelled, because they call platform services. `MealReminders.DoWork` takes a failure to reschedule as a parameter.
- `getStartOfDay` reads the device calendar and time zone. The worker's copy and the repository's compute the same thing, so both are the `startOfDay` function held by `MealPlanStore.MealPlanTable`, with no property assumed. The worker rounds now down and the repository rounds the result again, and the model applies the function twice in the same way.
- `MealPlanRepository.deleteMealPlan` is left out. It collects a Flow that never completes, so as written it never finishes.
- The float-list converters are left out, because they parse and print floats.
- Float and Double arithmetic is modelled on exact reals, without IEEE rounding. The BMR, the serving ratios and the macro totals may therefore differ from the device in the last place.
- `Long` timestamps are unbounded integers, so overflow of a timestamp is not modelled.
- AddRecipeForm.ParseInt: only ASCII digits are accepted. Kotlin also accepts other Unicode decimal digits.
- Notifications.SummaryContent: its own contract gives only the "Calories: " prefix. That the text carries the consumed and target calories and protein, in that order after their labels, is stated by Notifications.SummaryContentDeterminesNumbers instead.
- Common.Lowercase: only ASCII letters are folded. Kotlin folds every Unicode letter. Common.EqualsIgnoreCase has the same restriction.
- The meal-plan and recipe view models model only the error branches that produce a distinct result: missing meals, items, foods and recipes. Their generic catch blocks, which only set an error message, are not modelled. Neither are the `.catch` handlers of the flows.
- `FoodViewModel.searchFoodsOnline` has a catch branch that shows "Erreur lors de la recherche". It is not modelled because the repository it calls never throws, as `FoodStore.FoodTable.SearchFoodsOnline` proves.
- `RecipeViewModel.searchFoodsForIngredients` and `getRecipeDetails` only forward a repository query. That query is modelled as `FoodStore.FoodTable.SearchLocalFoods` and `RecipeStore.RecipeTable.GetRecipeWithIngredients`.
- Notification permission errors and the platform's posting of notifications are not modelled. `Notifications` computes what would be posted.
- The nutrition screen and the other fragments are not modelled; they only display data.
- Sync.DoWork: a failing pass is modelled as changing nothing, and the passes after it do not run. The outcome of a partial write inside one `UPDATE` is not modelled.

## Findings

| source | as written | input that shows it | evidently intended | confidence | as-written member | corrected member |
|---|---|---|---|---|---|---|
| app/src/main/java/com/example/mealplanner/data/repository/UserRepository.kt:82 | the female formula is chosen only for a case-insensitive "female", but the profile screen (app/src/main/java/com/example/mealplanner/ui/profile/ProfileFragment.kt:89) offers "Homme", "Femme" and "Autre" | gender "Femme", 70 kg, 175 cm, 30 years: BMR 1696 (male formula) instead of 1501 | the French label "Femme" selects the female formula | not executed | Nutrition.FemmeGetsMaleBmr | Nutrition.BmrIntended, Nutrition.IntendedFormulaForUiLabels |
| app/src/main/java/com/example/mealplanner/ui/recipes/RecipeViewModel.kt:98 | a new recipe's temporary ingredients carry recipe id "" because nothing is selected. `saveRecipe` (130-147) then stores them under "" rather than under the fresh recipe id | no selection, one temporary ingredient, save: the new recipe has no ingredient | every ingredient is saved under the id the recipe is saved with | not executed | RecipeViewModel.RecipeEditor.SaveRecipe, RecipeStore.NewRecipeGetsNoIngredients | RecipeViewModel.RecipeEditor.SaveRecipeRestamped, RecipeViewModel.RestampedSaveKeepsIngredients |
