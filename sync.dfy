/** The background synchronisation worker. It runs five passes in a fixed
    order (foods, recipes, meal plans, meals, meal items). Each pass reads
    the unsynced rows and marks their ids as synced, and no server is
    contacted. The food repository swallows its own database errors, so
    a food failure never stops the worker. Any other database error ends
    the run with a request to retry, and the passes already done stay
    done. */
module Sync {
  import opened Common
  import opened Entities
  import opened FoodStore
  import opened RecipeStore
  import opened MealPlanStore

  datatype WorkResult = Success | Retry

  /** The passes whose database calls can throw out of the worker. */
  datatype Pass = RecipePass | PlanPass | MealPass | ItemPass

  function Order(p: Pass): nat
  {
    match p
    case RecipePass => 0
    case PlanPass => 1
    case MealPass => 2
    case ItemPass => 3
  }

  /** Pass `p` completes when nothing fails, or when the failing pass
      comes after it. */
  predicate Completes(p: Pass, failure: Option<Pass>)
  {
    failure.None? || Order(p) < Order(failure.value)
  }

  predicate FailsAt(p: Pass, failure: Option<Pass>)
  {
    failure.Some? && failure.value == p
  }

  function FoodIds(fs: seq<Food>): (r: seq<string>)
    ensures |r| == |fs| && forall i :: 0 <= i < |fs| ==> r[i] == fs[i].id
  {
    seq(|fs|, i requires 0 <= i < |fs| => fs[i].id)
  }

  function RecipeIds(rs: seq<Recipe>): (r: seq<string>)
    ensures |r| == |rs| && forall i :: 0 <= i < |rs| ==> r[i] == rs[i].id
  {
    seq(|rs|, i requires 0 <= i < |rs| => rs[i].id)
  }

  function PlanIds(ps: seq<MealPlan>): (r: seq<string>)
    ensures |r| == |ps| && forall i :: 0 <= i < |ps| ==> r[i] == ps[i].id
  {
    seq(|ps|, i requires 0 <= i < |ps| => ps[i].id)
  }

  function MealIds(ms: seq<Meal>): (r: seq<string>)
    ensures |r| == |ms| && forall i :: 0 <= i < |ms| ==> r[i] == ms[i].id
  {
    seq(|ms|, i requires 0 <= i < |ms| => ms[i].id)
  }

  function ItemIds(ms: seq<MealItem>): (r: seq<string>)
    ensures |r| == |ms| && forall i :: 0 <= i < |ms| ==> r[i] == ms[i].id
  {
    seq(|ms|, i requires 0 <= i < |ms| => ms[i].id)
  }

  /** The state a table reaches once every row is synced. */
  function AllFoodsSynced(t: map<string, Food>): map<string, Food>
  {
    map k | k in t :: t[k].(isSynced := true)
  }

  function AllRecipesSynced(t: map<string, Recipe>): map<string, Recipe>
  {
    map k | k in t :: t[k].(isSynced := true)
  }

  function AllPlansSynced(t: map<string, MealPlan>): map<string, MealPlan>
  {
    map k | k in t :: t[k].(isSynced := true)
  }

  function AllMealsSynced(t: map<string, Meal>): map<string, Meal>
  {
    map k | k in t :: t[k].(isSynced := true)
  }

  function AllItemsSynced(t: map<(string, string), MealItem>): map<(string, string), MealItem>
  {
    map k | k in t :: t[k].(isSynced := true)
  }

  /** Marking the ids of exactly the unsynced foods syncs the whole table. */
  lemma MarkUnsyncedFoods(t: map<string, Food>, unsynced: seq<Food>)
    requires forall f :: f in unsynced <==> f in t.Values && !f.isSynced
    ensures MarkFoodsSynced(t, FoodIds(unsynced)) == AllFoodsSynced(t)
  {
    var ids := FoodIds(unsynced);
    forall k | k in t && !t[k].isSynced
      ensures t[k].id in ids
    {
      assert t[k] in t.Values;
      var i :| 0 <= i < |unsynced| && unsynced[i] == t[k];
      assert ids[i] == t[k].id;
    }
  }

  lemma MarkUnsyncedRecipes(t: map<string, Recipe>, unsynced: seq<Recipe>)
    requires forall x :: x in unsynced <==> x in t.Values && !x.isSynced
    ensures MarkRecipesSynced(t, RecipeIds(unsynced)) == AllRecipesSynced(t)
  {
    var ids := RecipeIds(unsynced);
    forall k | k in t && !t[k].isSynced
      ensures t[k].id in ids
    {
      assert t[k] in t.Values;
      var i :| 0 <= i < |unsynced| && unsynced[i] == t[k];
      assert ids[i] == t[k].id;
    }
  }

  lemma MarkUnsyncedPlans(t: map<string, MealPlan>, unsynced: seq<MealPlan>)
    requires forall x :: x in unsynced <==> x in t.Values && !x.isSynced
    ensures MarkPlansSynced(t, PlanIds(unsynced)) == AllPlansSynced(t)
  {
    var ids := PlanIds(unsynced);
    forall k | k in t && !t[k].isSynced
      ensures t[k].id in ids
    {
      assert t[k] in t.Values;
      var i :| 0 <= i < |unsynced| && unsynced[i] == t[k];
      assert ids[i] == t[k].id;
    }
  }

  lemma MarkUnsyncedMeals(t: map<string, Meal>, unsynced: seq<Meal>)
    requires forall x :: x in unsynced <==> x in t.Values && !x.isSynced
    ensures MarkMealsSynced(t, MealIds(unsynced)) == AllMealsSynced(t)
  {
    var ids := MealIds(unsynced);
    forall k | k in t && !t[k].isSynced
      ensures t[k].id in ids
    {
      assert t[k] in t.Values;
      var i :| 0 <= i < |unsynced| && unsynced[i] == t[k];
      assert ids[i] == t[k].id;
    }
  }

  lemma MarkUnsyncedItems(t: map<(string, string), MealItem>, unsynced: seq<MealItem>)
    requires forall x :: x in unsynced <==> x in t.Values && !x.isSynced
    ensures MarkItemsSynced(t, ItemIds(unsynced)) == AllItemsSynced(t)
  {
    var ids := ItemIds(unsynced);
    forall k | k in t && !t[k].isSynced
      ensures t[k].id in ids
    {
      assert t[k] in t.Values;
      var i :| 0 <= i < |unsynced| && unsynced[i] == t[k];
      assert ids[i] == t[k].id;
    }
  }

  /** The food pass: both of its errors are swallowed. */
  method SyncFoods(t: FoodTable, readFails: bool, writeFails: bool)
    requires t.Valid()
    modifies t
    ensures t.Valid()
    ensures t.foods == (if readFails || writeFails then old(t.foods) else AllFoodsSynced(old(t.foods)))
  {
    var foods := t.GetUnsyncedFoods(readFails);
    if foods != [] {
      MarkUnsyncedFoods(t.foods, foods);
      t.MarkFoodsAsSynced(FoodIds(foods), writeFails);
    } else if !readFails {
      MarkUnsyncedFoods(t.foods, foods);
    }
  }

  /** The recipe pass; `fails` says whether its database call throws. */
  method SyncRecipes(t: RecipeTable, fails: bool) returns (ok: bool)
    requires t.Valid()
    modifies t
    ensures t.Valid() && ok == !fails && t.ingredients == old(t.ingredients)
    ensures t.recipes == (if fails then old(t.recipes) else AllRecipesSynced(old(t.recipes)))
  {
    var recipes := t.GetUnsyncedRecipes();
    if fails {
      return false;
    }
    MarkUnsyncedRecipes(t.recipes, recipes);
    if recipes != [] {
      t.MarkRecipesAsSynced(RecipeIds(recipes));
    }
    return true;
  }

  method SyncPlans(t: MealPlanTable, fails: bool) returns (ok: bool)
    requires t.Valid()
    modifies t
    ensures t.Valid() && ok == !fails && t.meals == old(t.meals) && t.items == old(t.items)
    ensures t.plans == (if fails then old(t.plans) else AllPlansSynced(old(t.plans)))
  {
    var plans := t.GetUnsyncedMealPlans();
    if fails {
      return false;
    }
    MarkUnsyncedPlans(t.plans, plans);
    if plans != [] {
      t.MarkMealPlansAsSynced(PlanIds(plans));
    }
    return true;
  }

  method SyncMeals(t: MealPlanTable, fails: bool) returns (ok: bool)
    requires t.Valid()
    modifies t
    ensures t.Valid() && ok == !fails && t.plans == old(t.plans) && t.items == old(t.items)
    ensures t.meals == (if fails then old(t.meals) else AllMealsSynced(old(t.meals)))
  {
    var meals := t.GetUnsyncedMeals();
    if fails {
      return false;
    }
    MarkUnsyncedMeals(t.meals, meals);
    if meals != [] {
      t.MarkMealsAsSynced(MealIds(meals));
    }
    return true;
  }

  method SyncItems(t: MealPlanTable, fails: bool) returns (ok: bool)
    requires t.Valid()
    modifies t
    ensures t.Valid() && ok == !fails && t.plans == old(t.plans) && t.meals == old(t.meals)
    ensures t.items == (if fails then old(t.items) else AllItemsSynced(old(t.items)))
  {
    var items := t.GetUnsyncedMealItems();
    if fails {
      return false;
    }
    MarkUnsyncedItems(t.items, items);
    if items != [] {
      t.MarkMealItemsAsSynced(ItemIds(items));
    }
    return true;
  }

  /** One run of the worker. `foodReadFails` and `foodWriteFails` are the
      food repository's swallowed errors; `failure` names the first other
      pass whose database call throws, if any. */
  method DoWork(foodTable: FoodTable, recipeTable: RecipeTable, mealTable: MealPlanTable,
                foodReadFails: bool, foodWriteFails: bool, failure: Option<Pass>)
    returns (result: WorkResult)
    requires foodTable.Valid() && recipeTable.Valid() && mealTable.Valid()
    modifies foodTable, recipeTable, mealTable
    ensures foodTable.Valid() && recipeTable.Valid() && mealTable.Valid()
    ensures result == WorkResult.Success <==> failure.None?
    ensures foodTable.foods == (if foodReadFails || foodWriteFails then old(foodTable.foods)
                                else AllFoodsSynced(old(foodTable.foods)))
    ensures recipeTable.recipes == (if Completes(RecipePass, failure) then AllRecipesSynced(old(recipeTable.recipes))
                                    else old(recipeTable.recipes))
    ensures recipeTable.ingredients == old(recipeTable.ingredients)
    ensures mealTable.plans == (if Completes(PlanPass, failure) then AllPlansSynced(old(mealTable.plans))
                                else old(mealTable.plans))
    ensures mealTable.meals == (if Completes(MealPass, failure) then AllMealsSynced(old(mealTable.meals))
                                else old(mealTable.meals))
    ensures mealTable.items == (if Completes(ItemPass, failure) then AllItemsSynced(old(mealTable.items))
                                else old(mealTable.items))
  {
    SyncFoods(foodTable, foodReadFails, foodWriteFails);
    var ok := SyncRecipes(recipeTable, FailsAt(RecipePass, failure));
    if !ok {
      return Retry;
    }
    ok := SyncPlans(mealTable, FailsAt(PlanPass, failure));
    if !ok {
      return Retry;
    }
    ok := SyncMeals(mealTable, FailsAt(MealPass, failure));
    if !ok {
      return Retry;
    }
    ok := SyncItems(mealTable, FailsAt(ItemPass, failure));
    if !ok {
      return Retry;
    }
    return WorkResult.Success;
  }

  /** After a full sync every row is synced and only the isSynced flags
      changed; a second sync changes nothing. */
  lemma SyncOnlyFlipsFlags(foods: map<string, Food>, recipes: map<string, Recipe>, plans: map<string, MealPlan>,
                            meals: map<string, Meal>, items: map<(string, string), MealItem>)
    ensures forall k :: k in AllFoodsSynced(foods) ==> AllFoodsSynced(foods)[k].isSynced
    ensures AllFoodsSynced(foods).Keys == foods.Keys
    ensures forall k :: k in foods ==> AllFoodsSynced(foods)[k].(isSynced := foods[k].isSynced) == foods[k]
    ensures AllFoodsSynced(AllFoodsSynced(foods)) == AllFoodsSynced(foods)
    ensures forall k :: k in AllRecipesSynced(recipes) ==> AllRecipesSynced(recipes)[k].isSynced
    ensures AllRecipesSynced(recipes).Keys == recipes.Keys
    ensures forall k :: k in recipes ==> AllRecipesSynced(recipes)[k].(isSynced := recipes[k].isSynced) == recipes[k]
    ensures AllRecipesSynced(AllRecipesSynced(recipes)) == AllRecipesSynced(recipes)
    ensures forall k :: k in AllPlansSynced(plans) ==> AllPlansSynced(plans)[k].isSynced
    ensures AllPlansSynced(plans).Keys == plans.Keys
    ensures forall k :: k in plans ==> AllPlansSynced(plans)[k].(isSynced := plans[k].isSynced) == plans[k]
    ensures AllPlansSynced(AllPlansSynced(plans)) == AllPlansSynced(plans)
    ensures forall k :: k in AllMealsSynced(meals) ==> AllMealsSynced(meals)[k].isSynced
    ensures AllMealsSynced(meals).Keys == meals.Keys
    ensures forall k :: k in meals ==> AllMealsSynced(meals)[k].(isSynced := meals[k].isSynced) == meals[k]
    ensures AllMealsSynced(AllMealsSynced(meals)) == AllMealsSynced(meals)
    ensures forall k :: k in AllItemsSynced(items) ==> AllItemsSynced(items)[k].isSynced
    ensures AllItemsSynced(items).Keys == items.Keys
    ensures forall k :: k in items ==> AllItemsSynced(items)[k].(isSynced := items[k].isSynced) == items[k]
    ensures AllItemsSynced(AllItemsSynced(items)) == AllItemsSynced(items)
  {
  }

  /** When every food is already synced, the food pass changes nothing. */
  lemma SyncedTableIsFixed(t: map<string, Food>)
    requires forall k :: k in t ==> t[k].isSynced
    ensures AllFoodsSynced(t) == t
  {
  }

  /** A second run right after a successful one finds nothing to do. */
  method SecondRunChangesNothing(foodTable: FoodTable, recipeTable: RecipeTable, mealTable: MealPlanTable)
    requires foodTable.Valid() && recipeTable.Valid() && mealTable.Valid()
    modifies foodTable, recipeTable, mealTable
    ensures foodTable.foods == AllFoodsSynced(old(foodTable.foods))
    ensures recipeTable.recipes == AllRecipesSynced(old(recipeTable.recipes))
    ensures mealTable.plans == AllPlansSynced(old(mealTable.plans))
    ensures mealTable.meals == AllMealsSynced(old(mealTable.meals))
    ensures mealTable.items == AllItemsSynced(old(mealTable.items))
  {
    var first := DoWork(foodTable, recipeTable, mealTable, false, false, None);
    ghost var foods1, recipes1 := foodTable.foods, recipeTable.recipes;
    ghost var plans1, meals1, items1 := mealTable.plans, mealTable.meals, mealTable.items;
    var second := DoWork(foodTable, recipeTable, mealTable, false, false, None);
    assert AllFoodsSynced(foods1) == foods1;
    assert AllRecipesSynced(recipes1) == recipes1;
    assert AllPlansSynced(plans1) == plans1;
    assert AllMealsSynced(meals1) == meals1;
    assert AllItemsSynced(items1) == items1;
  }
}
