/** Meal-item valuation and per-meal aggregation: the calorie helpers and
    the item resolution of the meal-plan view model, and the totals loop of
    the meal details screen. */
module MealValuation {
  import opened Common
  import opened Entities

  /** A meal item joined with the food or recipe it names, ready to show. */
  datatype MealItemDetails = MealItemDetails(
    item: MealItem,
    food: Option<Food>,
    recipe: Option<Recipe>,
    name: string,
    calories: int)

  /** `quantity * servingSize / 100`: the factor applied to per-100 nutrients. */
  function ServingRatio(quantity: real, servingSize: real): real
  {
    quantity * servingSize / 100.0
  }

  /** `calculateFoodCalories`: truncated, not rounded. */
  function FoodCalories(food: Food, quantity: real, servingSize: real): int
  {
    Trunc(food.calories as real * ServingRatio(quantity, servingSize))
  }

  /** `calculateRecipeCalories`: a flat 500 kcal per serving; the recipe
      itself is not consulted. */
  function RecipeCalories(recipe: Recipe, servings: real): int
  {
    Trunc(500.0 * servings)
  }

  /** What a resolved entry promises: exactly one of food and recipe, the
      name and the calories taken from it. */
  predicate WellFormed(d: MealItemDetails)
  {
    (d.food.Some? != d.recipe.Some?) &&
    (d.food.Some? ==> d.item.foodId == Some(d.food.value.id) && d.name == d.food.value.name &&
                      d.calories == FoodCalories(d.food.value, d.item.quantity, d.item.servingSize)) &&
    (d.recipe.Some? ==> d.item.foodId.None? && d.item.recipeId == Some(d.recipe.value.id) &&
                        d.name == d.recipe.value.name &&
                        d.calories == RecipeCalories(d.recipe.value, d.item.quantity))
  }

  /** One step of the `mapNotNull` in `loadMealItems`. A set foodId wins:
      if that food is missing the item is dropped even when a recipeId is
      also set. */
  function ResolveItem(item: MealItem, foods: map<string, Food>, recipes: map<string, Recipe>)
    : (r: Option<MealItemDetails>)
    requires forall k :: k in foods ==> foods[k].id == k
    requires forall k :: k in recipes ==> recipes[k].id == k
    ensures item.foodId.Some? ==> (r.Some? <==> item.foodId.value in foods)
    ensures item.foodId.None? && item.recipeId.Some? ==> (r.Some? <==> item.recipeId.value in recipes)
    ensures item.foodId.None? && item.recipeId.None? ==> r.None?
    ensures r.Some? ==> r.value.item == item && WellFormed(r.value)
    ensures r.Some? && item.foodId.Some? ==> r.value.food == Some(foods[item.foodId.value])
  {
    if item.foodId.Some? then
      var id := item.foodId.value;
      if id in foods then
        var food := foods[id];
        Some(MealItemDetails(item, Some(food), None, food.name,
                             FoodCalories(food, item.quantity, item.servingSize)))
      else None
    else if item.recipeId.Some? then
      var id := item.recipeId.value;
      if id in recipes then
        var recipe := recipes[id];
        Some(MealItemDetails(item, None, Some(recipe), recipe.name,
                             RecipeCalories(recipe, item.quantity)))
      else None
    else None
  }

  function ItemsOf(ds: seq<MealItemDetails>): (r: seq<MealItem>)
    ensures |r| == |ds|
    ensures forall i :: 0 <= i < |ds| ==> r[i] == ds[i].item
  {
    if ds == [] then [] else [ds[0].item] + ItemsOf(ds[1..])
  }

  /** The whole `mapNotNull`: unresolved items are dropped, the others kept
      in their order, each exactly as `ResolveItem` builds it. */
  function Resolve(items: seq<MealItem>, foods: map<string, Food>, recipes: map<string, Recipe>)
    : (r: seq<MealItemDetails>)
    requires forall k :: k in foods ==> foods[k].id == k
    requires forall k :: k in recipes ==> recipes[k].id == k
    ensures |r| <= |items|
    ensures IsSubsequence(ItemsOf(r), items)
    ensures forall i :: 0 <= i < |r| ==> ResolveItem(r[i].item, foods, recipes) == Some(r[i])
  {
    if items == [] then []
    else
      var rest := Resolve(items[1..], foods, recipes);
      match ResolveItem(items[0], foods, recipes)
      case Some(d) =>
        assert ItemsOf([d] + rest)[1..] == ItemsOf(rest);
        [d] + rest
      case None =>
        SubsequenceOfTail(ItemsOf(rest), items);
        rest
  }

  /** No resolvable item is lost. */
  lemma {:induction false} ResolveKeepsResolvable(items: seq<MealItem>, foods: map<string, Food>,
                                                  recipes: map<string, Recipe>, i: int)
    requires forall k :: k in foods ==> foods[k].id == k
    requires forall k :: k in recipes ==> recipes[k].id == k
    requires 0 <= i < |items| && ResolveItem(items[i], foods, recipes).Some?
    ensures ResolveItem(items[i], foods, recipes).value in Resolve(items, foods, recipes)
  {
    if i > 0 {
      ResolveKeepsResolvable(items[1..], foods, recipes, i - 1);
    }
  }

  /** An item whose food or recipe resolves nowhere contributes nothing:
      resolving a list is resolving it without that item. */
  lemma {:induction false} UnresolvedItemIsDropped(before: seq<MealItem>, item: MealItem, after: seq<MealItem>,
                                                   foods: map<string, Food>, recipes: map<string, Recipe>)
    requires forall k :: k in foods ==> foods[k].id == k
    requires forall k :: k in recipes ==> recipes[k].id == k
    requires ResolveItem(item, foods, recipes).None?
    ensures Resolve(before + [item] + after, foods, recipes) == Resolve(before + after, foods, recipes)
  {
    var whole := before + [item] + after;
    var without := before + after;
    if before == [] {
      assert whole == [item] + after && whole[0] == item && whole[1..] == after;
      assert without == after;
    } else {
      UnresolvedItemIsDropped(before[1..], item, after, foods, recipes);
      assert whole[1..] == before[1..] + [item] + after;
      assert without[1..] == before[1..] + after;
      ResolveByHead(whole, without, foods, recipes);
    }
  }

  /** Resolving a list that repeats no item repeats no entry: the query's
      rows are shown once each. */
  lemma {:induction false} ResolveNoDuplicates(items: seq<MealItem>, foods: map<string, Food>,
                                               recipes: map<string, Recipe>)
    requires forall k :: k in foods ==> foods[k].id == k
    requires forall k :: k in recipes ==> recipes[k].id == k
    requires NoDuplicates(items)
    ensures NoDuplicates(Resolve(items, foods, recipes))
  {
    if items != [] {
      var tail := items[1..];
      assert NoDuplicates(tail) by {
        forall i, j | 0 <= i < j < |tail|
          ensures tail[i] != tail[j]
        {
          assert tail[i] == items[i + 1] && tail[j] == items[j + 1];
        }
      }
      ResolveNoDuplicates(tail, foods, recipes);
      var rest := Resolve(tail, foods, recipes);
      var head := ResolveItem(items[0], foods, recipes);
      if head.Some? {
        forall k | 0 <= k < |rest|
          ensures rest[k] != head.value
        {
          assert ItemsOf(rest)[k] == rest[k].item;
          SubsequenceMembers(ItemsOf(rest), tail, k);
          var m :| 0 <= m < |tail| && tail[m] == rest[k].item;
          assert items[m + 1] == tail[m];
        }
        assert Resolve(items, foods, recipes) == [head.value] + rest;
      }
    }
  }

  /** Resolving depends on the head and on what the tail resolves to. */
  lemma ResolveByHead(a: seq<MealItem>, b: seq<MealItem>, foods: map<string, Food>, recipes: map<string, Recipe>)
    requires forall k :: k in foods ==> foods[k].id == k
    requires forall k :: k in recipes ==> recipes[k].id == k
    requires a != [] && b != [] && a[0] == b[0]
    requires Resolve(a[1..], foods, recipes) == Resolve(b[1..], foods, recipes)
    ensures Resolve(a, foods, recipes) == Resolve(b, foods, recipes)
  {
  }

  // ---------------------------------------------------------------------
  // Totals of one meal (the meal details screen)

  /** What the meal details screen shows: calories, the three macro totals
      in whole grams, and whether the "no foods" marker is visible. */
  datatype NutritionInfo = NutritionInfo(calories: int, protein: int, carbs: int, fat: int, noFoods: bool)

  function ProteinOf(f: Food): real { f.protein }
  function CarbsOf(f: Food): real { f.carbs }
  function FatOf(f: Food): real { f.fat }

  /** A macro contributed by one entry: food entries only, scaled by their
      serving ratio; recipe entries contribute nothing. */
  function ItemMacro(d: MealItemDetails, macro: Food -> real): real
  {
    if d.food.Some? then macro(d.food.value) * ServingRatio(d.item.quantity, d.item.servingSize) else 0.0
  }

  /** Sum of the (already truncated) per-entry calories, left to right. */
  function SumCalories(ds: seq<MealItemDetails>): int
  {
    if ds == [] then 0 else SumCalories(ds[..|ds| - 1]) + ds[|ds| - 1].calories
  }

  /** Untruncated sum of one macro over the entries, left to right. */
  function SumMacro(ds: seq<MealItemDetails>, macro: Food -> real): real
  {
    if ds == [] then 0.0 else SumMacro(ds[..|ds| - 1], macro) + ItemMacro(ds[|ds| - 1], macro)
  }

  /** `updateNutritionInfo` and the empty-list marker: calories add the
      per-entry values in an `Int` total that wraps around, macros are
      truncated once, after summing. */
  method UpdateNutritionInfo(items: seq<MealItemDetails>) returns (info: NutritionInfo)
    ensures info.calories == Wrap32(SumCalories(items))
    ensures MinInt <= SumCalories(items) <= MaxInt ==> info.calories == SumCalories(items)
    ensures info.protein == Trunc(SumMacro(items, ProteinOf))
    ensures info.carbs == Trunc(SumMacro(items, CarbsOf))
    ensures info.fat == Trunc(SumMacro(items, FatOf))
    ensures info.noFoods <==> items == []
  {
    var totalCalories := 0;
    var totalProtein, totalCarbs, totalFat := 0.0, 0.0, 0.0;
    var i := 0;
    while i < |items|
      invariant 0 <= i <= |items|
      invariant totalCalories == Wrap32(SumCalories(items[..i]))
      invariant totalProtein == SumMacro(items[..i], ProteinOf)
      invariant totalCarbs == SumMacro(items[..i], CarbsOf)
      invariant totalFat == SumMacro(items[..i], FatOf)
    {
      var d := items[i];
      assert items[..i + 1][..i] == items[..i];
      Wrap32AddWrapped(SumCalories(items[..i]), d.calories);
      totalCalories := Wrap32(totalCalories + d.calories);
      if d.food.Some? {
        var ratio := d.item.quantity * d.item.servingSize / 100.0;
        totalProtein := totalProtein + d.food.value.protein * ratio;
        totalCarbs := totalCarbs + d.food.value.carbs * ratio;
        totalFat := totalFat + d.food.value.fat * ratio;
      }
      i := i + 1;
    }
    assert items[..|items|] == items;
    info := NutritionInfo(totalCalories, Trunc(totalProtein), Trunc(totalCarbs), Trunc(totalFat), items == []);
  }

  /** Totals are additive over a split of the list. */
  lemma {:induction false} SumCaloriesAppend(a: seq<MealItemDetails>, b: seq<MealItemDetails>)
    ensures SumCalories(a + b) == SumCalories(a) + SumCalories(b)
    decreases |b|
  {
    if b == [] {
      assert a + b == a;
    } else {
      SumCaloriesAppend(a, b[..|b| - 1]);
      assert (a + b)[..|a + b| - 1] == a + b[..|b| - 1];
    }
  }

  /** Entries without a food (recipe entries) add no protein, carbs or fat. */
  lemma {:induction false} RecipeEntriesAddNoMacros(ds: seq<MealItemDetails>, macro: Food -> real)
    requires forall i :: 0 <= i < |ds| ==> ds[i].food.None?
    ensures SumMacro(ds, macro) == 0.0
  {
    if ds != [] {
      RecipeEntriesAddNoMacros(ds[..|ds| - 1], macro);
    }
  }

  /** With non-negative quantities, serving sizes and nutrient values every
      total is non-negative. */
  lemma {:induction false} MacroTotalsNonNegative(ds: seq<MealItemDetails>, macro: Food -> real)
    requires forall i :: 0 <= i < |ds| ==> ds[i].item.quantity >= 0.0 && ds[i].item.servingSize >= 0.0
    requires forall i :: 0 <= i < |ds| && ds[i].food.Some? ==> macro(ds[i].food.value) >= 0.0
    ensures SumMacro(ds, macro) >= 0.0
  {
    if ds != [] {
      var last := ds[|ds| - 1];
      MacroTotalsNonNegative(ds[..|ds| - 1], macro);
      if last.food.Some? {
        var q, s := last.item.quantity, last.item.servingSize;
        assert q * s >= 0.0;
        assert ServingRatio(q, s) >= 0.0;
        assert macro(last.food.value) * ServingRatio(q, s) >= 0.0;
      }
    }
  }

  // ---------------------------------------------------------------------
  // Worked examples

  function Banana(): Food
  {
    Food("banana", "Banane", 89, 1.1, 22.8, 0.3, 2.6, 12.2, 100.0, "g", None, false, 0, [100.0], None, false)
  }

  /** 89 kcal per 100 g at 150 g gives 133.5, shown as 133 (truncated). */
  lemma BananaCalories()
    ensures FoodCalories(Banana(), 1.0, 150.0) == 133
  {
    assert ServingRatio(1.0, 150.0) == 1.5;
  }

  /** Two servings of any recipe are 1000 kcal, whatever its tags or times. */
  lemma RecipeCaloriesIgnoreRecipe(r1: Recipe, r2: Recipe, servings: real)
    ensures RecipeCalories(r1, servings) == RecipeCalories(r2, servings)
    ensures RecipeCalories(r1, 2.0) == 1000
  {
  }

  /** A meal with the 150 g banana and an item whose food no longer exists
      totals 133 kcal: the missing item is dropped, not an error. */
  lemma MissingFoodExcludedFromTotal(mealId: string)
    ensures var banana := MealItem("a", mealId, Some("banana"), None, 1.0, 150.0, false);
      var lost := MealItem("b", mealId, Some("gone"), None, 1.0, 100.0, false);
      var shown := Resolve([banana, lost], map["banana" := Banana()], map[]);
      |shown| == 1 && SumCalories(shown) == 133
  {
    var banana := MealItem("a", mealId, Some("banana"), None, 1.0, 150.0, false);
    var lost := MealItem("b", mealId, Some("gone"), None, 1.0, 100.0, false);
    var foods := map["banana" := Banana()];
    BananaCalories();
    assert [banana, lost][1..] == [lost];
    assert Resolve([lost], foods, map[]) == [];
    var shown := Resolve([banana, lost], foods, map[]);
    assert shown == [ResolveItem(banana, foods, map[]).value];
    assert shown[..0] == [];
  }

  /** Macros are truncated once after summing while calories are truncated
      per entry: two entries of 0.6 g protein show 1 g, not 0 g. */
  lemma MacrosTruncatedOnceAfterSumming()
    ensures var food := Banana().(protein := 0.6);
      var item := MealItem("a", "m", Some(food.id), None, 1.0, 100.0, false);
      var d := MealItemDetails(item, Some(food), None, food.name, FoodCalories(food, 1.0, 100.0));
      Trunc(SumMacro([d, d], ProteinOf)) == 1 && Trunc(ItemMacro(d, ProteinOf)) + Trunc(ItemMacro(d, ProteinOf)) == 0
  {
    var food := Banana().(protein := 0.6);
    var item := MealItem("a", "m", Some(food.id), None, 1.0, 100.0, false);
    var d := MealItemDetails(item, Some(food), None, food.name, FoodCalories(food, 1.0, 100.0));
    assert ServingRatio(1.0, 100.0) == 1.0;
    assert ItemMacro(d, ProteinOf) == 0.6;
    assert [d, d][..1] == [d];
    assert [d][..0] == [];
    assert SumMacro([d], ProteinOf) == 0.6;
    assert SumMacro([d, d], ProteinOf) == 1.2;
  }

  // ---------------------------------------------------------------------
  // The meal shown by the details screen

  /** `meals.find { it.id == mealId }`: the first meal with that id. */
  function FindMeal(meals: seq<Meal>, mealId: string): (r: Option<Meal>)
    ensures r.Some? ==> r.value in meals && r.value.id == mealId
    ensures r.None? <==> forall m :: m in meals ==> m.id != mealId
    ensures r.Some? ==> exists i :: 0 <= i < |meals| && meals[i] == r.value &&
                          forall j :: 0 <= j < i ==> meals[j].id != mealId
  {
    if meals == [] then None
    else if meals[0].id == mealId then Some(meals[0])
    else
      var r := FindMeal(meals[1..], mealId);
      assert forall m :: m in meals ==> m == meals[0] || m in meals[1..];
      if r.None? then r
      else
        var i :| 0 <= i < |meals[1..]| && meals[1..][i] == r.value &&
                 forall j :: 0 <= j < i ==> meals[1..][j].id != mealId;
        assert meals[i + 1] == r.value;
        assert forall j :: 1 <= j < i + 1 ==> meals[j].id == meals[1..][j - 1].id;
        r
  }
}
