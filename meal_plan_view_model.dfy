/** The meal-plan screen's state holder: the selected day and its plan,
    that plan's meals, the selected meal with its resolved items, and the
    last message. Each launched coroutine body is one sequential method;
    database errors on these paths are not modelled. */
module MealPlanViewModel {
  import opened Common
  import opened Entities
  import opened MealValuation
  import opened MealPlanStore
  import opened FoodStore
  import opened RecipeStore
  import opened Queries

  const MealAdded: string := "Repas ajouté avec succès"
  const MealUpdated: string := "Repas mis à jour"
  const MealNotFound: string := "Repas non trouvé"
  const MealDeleted: string := "Repas supprimé"
  const FoodAdded: string := "Aliment ajouté au repas"
  const RecipeAdded: string := "Recette ajoutée au repas"
  const ItemUpdated: string := "Item mis à jour"
  const ItemDeleted: string := "Item supprimé"
  const ItemNotFound: string := "Item non trouvé"

  /** `mealItems.find { it.item.id == mealItemId }?.item`: the first shown
      item with that id. */
  function FindShownItem(ds: seq<MealItemDetails>, mealItemId: string): (r: Option<MealItem>)
    ensures r.None? <==> forall d :: d in ds ==> d.item.id != mealItemId
    ensures r.Some? ==> exists i :: 0 <= i < |ds| && ds[i].item == r.value && r.value.id == mealItemId &&
                          forall j :: 0 <= j < i ==> ds[j].item.id != mealItemId
  {
    if ds == [] then None
    else if ds[0].item.id == mealItemId then Some(ds[0].item)
    else
      var r := FindShownItem(ds[1..], mealItemId);
      assert forall d :: d in ds ==> d == ds[0] || d in ds[1..];
      if r.None? then r
      else
        var i :| 0 <= i < |ds[1..]| && ds[1..][i].item == r.value && r.value.id == mealItemId &&
                 forall j :: 0 <= j < i ==> ds[1..][j].item.id != mealItemId;
        assert ds[i + 1].item == r.value;
        r
  }

  /** The items of meal `mealId` that the screen can show, each once. */
  ghost predicate ShowsMealItems(shown: seq<MealItemDetails>, items: map<(string, string), MealItem>,
                                 foods: map<string, Food>, recipes: map<string, Recipe>, mealId: string)
    requires forall k :: k in foods ==> foods[k].id == k
    requires forall k :: k in recipes ==> recipes[k].id == k
  {
    (forall d :: d in shown ==>
       d.item in items.Values && d.item.mealId == mealId && ResolveItem(d.item, foods, recipes) == Some(d)) &&
    (forall it :: it in items.Values && it.mealId == mealId && ResolveItem(it, foods, recipes).Some? ==>
                ResolveItem(it, foods, recipes).value in shown) &&
    NoDuplicates(shown)
  }

  /** The meals of plan `planId` as `getMealsForMealPlan` lists them: each
      once, ordered by time. */
  ghost predicate ListsMealsOf(shown: seq<Meal>, meals: map<string, Meal>, planId: string)
  {
    (forall m :: m in shown <==> m in meals.Values && m.mealPlanId == planId) &&
    NoDuplicates(shown) && SortedBy(shown, TimeLe)
  }

  class MealPlanScreen {
    const store: MealPlanTable
    const foodTable: FoodTable
    const recipeTable: RecipeTable
    var selectedDate: int
    var currentMealPlan: Option<MealPlan>
    var mealsForCurrentPlan: seq<Meal>
    var message: Option<string>
    var selectedMealId: Option<string>
    var mealItems: seq<MealItemDetails>

    ghost predicate Valid()
      reads this, store, foodTable, recipeTable
    {
      store.Valid() && foodTable.Valid() && recipeTable.Valid()
    }

    /** What `loadMealPlanForSelectedDate` leaves on screen, the plan table
        having been `before`: the selected day's plan as fetched, and its
        meals. With one plan per day it is the only plan of that day. */
    ghost predicate ShowsSelectedDay(before: map<string, MealPlan>, freshPlanId: string)
      reads this, store
    {
      currentMealPlan.Some? &&
      PlanFetched(before, store.plans, store.startOfDay(selectedDate), freshPlanId, currentMealPlan.value) &&
      ListsMealsOf(mealsForCurrentPlan, store.meals, currentMealPlan.value.id) &&
      (store.OnePlanPerDay() ==>
         forall p :: p in store.plans.Values && p.date == store.startOfDay(selectedDate) ==> p == currentMealPlan.value)
    }

    /** The `init` block: select today. */
    constructor(store: MealPlanTable, foodTable: FoodTable, recipeTable: RecipeTable, today: int, freshPlanId: string)
      requires store.Valid() && foodTable.Valid() && recipeTable.Valid()
      modifies store
      ensures Valid() && this.store == store && this.foodTable == foodTable && this.recipeTable == recipeTable
      ensures selectedDate == today
      ensures ShowsSelectedDay(old(store.plans), freshPlanId)
      ensures store.meals == old(store.meals) && store.items == old(store.items)
      ensures selectedMealId.None? && mealItems == [] && message.None?
    {
      this.store := store;
      this.foodTable := foodTable;
      this.recipeTable := recipeTable;
      selectedDate := today;
      currentMealPlan := None;
      mealsForCurrentPlan := [];
      message := None;
      selectedMealId := None;
      mealItems := [];
      new;
      SelectDate(today, freshPlanId);
    }

    /** `loadMealPlanForSelectedDate`: the selected day's plan (created if
        need be) and its meals ordered by time. */
    method LoadMealPlanForSelectedDate(freshPlanId: string)
      requires Valid()
      modifies this, store
      ensures Valid()
      ensures selectedDate == old(selectedDate) && message == old(message)
      ensures selectedMealId == old(selectedMealId) && mealItems == old(mealItems)
      ensures store.meals == old(store.meals) && store.items == old(store.items)
      ensures ShowsSelectedDay(old(store.plans), freshPlanId)
    {
      var plan := store.GetMealPlanForDate(selectedDate, freshPlanId);
      currentMealPlan := Some(plan);
      mealsForCurrentPlan := store.GetMealsForMealPlan(plan.id);
    }

    /** `selectDate`. */
    method SelectDate(date: int, freshPlanId: string)
      requires Valid()
      modifies this, store
      ensures Valid()
      ensures selectedDate == date && message == old(message)
      ensures selectedMealId == old(selectedMealId) && mealItems == old(mealItems)
      ensures store.meals == old(store.meals) && store.items == old(store.items)
      ensures ShowsSelectedDay(old(store.plans), freshPlanId)
    {
      selectedDate := date;
      LoadMealPlanForSelectedDate(freshPlanId);
    }

    /** `loadMealItems`: the meal's items resolved against the food and
        recipe tables, unresolvable ones dropped. */
    method LoadMealItems(mealId: string)
      requires Valid()
      modifies this
      ensures Valid() && unchanged(store) && unchanged(foodTable) && unchanged(recipeTable)
      ensures selectedDate == old(selectedDate) && currentMealPlan == old(currentMealPlan)
      ensures mealsForCurrentPlan == old(mealsForCurrentPlan) && message == old(message)
      ensures selectedMealId == old(selectedMealId)
      ensures ShowsMealItems(mealItems, store.items, foodTable.foods, recipeTable.recipes, mealId)
    {
      var items := store.GetMealItemsForMeal(mealId);
      mealItems := Resolve(items, foodTable.foods, recipeTable.recipes);
      ResolveNoDuplicates(items, foodTable.foods, recipeTable.recipes);
      forall it | it in store.items.Values && it.mealId == mealId && ResolveItem(it, foodTable.foods, recipeTable.recipes).Some?
        ensures ResolveItem(it, foodTable.foods, recipeTable.recipes).value in mealItems
      {
        var i :| 0 <= i < |items| && items[i] == it;
        ResolveKeepsResolvable(items, foodTable.foods, recipeTable.recipes, i);
      }
      forall d | d in mealItems
        ensures d.item in store.items.Values && d.item.mealId == mealId
      {
        var i :| 0 <= i < |mealItems| && mealItems[i] == d;
        assert ItemsOf(mealItems)[i] == d.item;
        SubsequenceMembers(ItemsOf(mealItems), items, i);
      }
    }

    /** `selectMeal`: a meal id loads its items, null clears them. */
    method SelectMeal(mealId: Option<string>)
      requires Valid()
      modifies this
      ensures Valid() && unchanged(store) && unchanged(foodTable) && unchanged(recipeTable)
      ensures selectedDate == old(selectedDate) && currentMealPlan == old(currentMealPlan)
      ensures mealsForCurrentPlan == old(mealsForCurrentPlan) && message == old(message)
      ensures selectedMealId == mealId
      ensures mealId.None? ==> mealItems == []
      ensures mealId.Some? ==> ShowsMealItems(mealItems, store.items, foodTable.foods, recipeTable.recipes, mealId.value)
    {
      selectedMealId := mealId;
      if mealId.Some? {
        LoadMealItems(mealId.value);
      } else {
        mealItems := [];
      }
    }

    /** `addMeal`: into the current plan, or the selected day's plan when
        there is none yet; the new meal becomes the selection, and the day
        is reloaded. With one plan per day, and a current plan (if any) that
        is still the selected day's, the new meal is listed. */
    method AddMeal(mealType: MealType, time: int, name: string, notes: string,
                   freshPlanId: string, freshMealId: string)
      requires Valid()
      modifies this, store
      ensures Valid() && store.items == old(store.items) && selectedDate == old(selectedDate)
      ensures message == Some(MealAdded) && selectedMealId == Some(freshMealId)
      ensures exists planId :: store.meals == old(store.meals)[freshMealId := Meal(freshMealId, planId, mealType, time, name, notes, false)]
      ensures old(currentMealPlan).Some? ==>
                store.meals == old(store.meals)[freshMealId := Meal(freshMealId, old(currentMealPlan).value.id, mealType, time, name, notes, false)]
      ensures old(currentMealPlan).None? ==>
                exists p :: p in store.plans.Values && p.date == store.startOfDay(old(selectedDate)) &&
                  store.meals == old(store.meals)[freshMealId := Meal(freshMealId, p.id, mealType, time, name, notes, false)]
      ensures ShowsSelectedDay(old(store.plans), freshPlanId)
      ensures ShowsMealItems(mealItems, store.items, foodTable.foods, recipeTable.recipes, freshMealId)
      ensures store.OnePlanPerDay() &&
              (old(currentMealPlan).Some? ==> old(currentMealPlan).value in store.plans.Values &&
                                              old(currentMealPlan).value.date == store.startOfDay(selectedDate)) ==>
                store.meals[freshMealId] in mealsForCurrentPlan
    {
      var mealPlanId;
      ghost var plan := MealPlan("", 0, false);
      if currentMealPlan.Some? {
        mealPlanId := currentMealPlan.value.id;
      } else {
        var found := store.GetMealPlanForDate(selectedDate, freshPlanId);
        plan := found;
        mealPlanId := found.id;
      }
      ghost var fetched := store.plans;
      var mealId := store.AddMealToMealPlan(mealPlanId, mealType, time, name, notes, freshMealId);
      ghost var meals := store.meals;
      message := Some(MealAdded);
      SelectMeal(Some(mealId));
      LoadMealPlanForSelectedDate(freshPlanId);
      assert store.meals == meals;
      if old(currentMealPlan).None? {
        PlanFetchedTwice(old(store.plans), fetched, store.plans, store.startOfDay(selectedDate), freshPlanId,
                         plan, currentMealPlan.value);
        assert store.plans == fetched;
      }
      if store.OnePlanPerDay() &&
         (old(currentMealPlan).Some? ==> old(currentMealPlan).value in store.plans.Values &&
                                         old(currentMealPlan).value.date == store.startOfDay(selectedDate)) {
        var added := store.meals[freshMealId];
        assert added.mealPlanId == mealPlanId;
        if old(currentMealPlan).None? {
          assert plan in store.plans.Values;
        }
        assert added in store.meals.Values;
      }
    }

    /** `updateMeal`: copy with the new type, time, name and notes and
        isSynced reset, then the day is reloaded; a missing meal writes
        nothing and reloads nothing. */
    method UpdateMeal(mealId: string, mealType: MealType, time: int, name: string, notes: string, freshPlanId: string)
      requires Valid()
      modifies this, store
      ensures Valid() && store.items == old(store.items) && selectedDate == old(selectedDate)
      ensures selectedMealId == old(selectedMealId) && mealItems == old(mealItems)
      ensures mealId in old(store.meals) ==>
                message == Some(MealUpdated) &&
                store.meals == old(store.meals)[mealId := old(store.meals)[mealId].(mealType := mealType, time := time,
                                                                                   name := name, notes := notes,
                                                                                   isSynced := false)] &&
                ShowsSelectedDay(old(store.plans), freshPlanId)
      ensures mealId !in old(store.meals) ==> message == Some(MealNotFound) && store.meals == old(store.meals)
      ensures mealId !in old(store.meals) ==>
                store.plans == old(store.plans) && currentMealPlan == old(currentMealPlan) &&
                mealsForCurrentPlan == old(mealsForCurrentPlan)
    {
      var meal := store.MealById(mealId);
      if meal.Some? {
        var updated := meal.value.(mealType := mealType, time := time, name := name, notes := notes, isSynced := false);
        store.UpdateMeal(updated);
        message := Some(MealUpdated);
        LoadMealPlanForSelectedDate(freshPlanId);
      } else {
        message := Some(MealNotFound);
      }
    }

    /** `deleteMeal`: the meal and its items go, the selection is cleared
        and the day is reloaded; a missing meal writes nothing. */
    method DeleteMeal(mealId: string, freshPlanId: string)
      requires Valid()
      modifies this, store
      ensures Valid() && selectedDate == old(selectedDate)
      ensures mealId in old(store.meals) ==>
                message == Some(MealDeleted) && selectedMealId.None? && mealItems == [] &&
                store.meals == old(store.meals) - {mealId} && store.items == WithoutItemsOf(old(store.items), mealId) &&
                ShowsSelectedDay(old(store.plans), freshPlanId)
      ensures mealId !in old(store.meals) ==>
                message == Some(MealNotFound) && store.meals == old(store.meals) && store.items == old(store.items) &&
                selectedMealId == old(selectedMealId)
      ensures mealId !in old(store.meals) ==>
                store.plans == old(store.plans) && currentMealPlan == old(currentMealPlan) &&
                mealsForCurrentPlan == old(mealsForCurrentPlan) && mealItems == old(mealItems)
    {
      var meal := store.MealById(mealId);
      if meal.Some? {
        store.DeleteMeal(meal.value);
        message := Some(MealDeleted);
        SelectMeal(None);
        LoadMealPlanForSelectedDate(freshPlanId);
      } else {
        message := Some(MealNotFound);
      }
    }

    /** `addFoodToMeal`: a food item with no recipe id; the meal's items are
        reloaded, the day is not. */
    method AddFoodToMeal(mealId: string, foodId: string, quantity: real, servingSize: real, freshItemId: string)
      requires Valid()
      modifies this, store
      ensures Valid() && store.plans == old(store.plans) && store.meals == old(store.meals)
      ensures store.items == old(store.items)[(freshItemId, mealId) :=
                MealItem(freshItemId, mealId, Some(foodId), None, quantity, servingSize, false)]
      ensures message == Some(FoodAdded)
      ensures ShowsMealItems(mealItems, store.items, foodTable.foods, recipeTable.recipes, mealId)
      ensures selectedDate == old(selectedDate) && currentMealPlan == old(currentMealPlan)
      ensures mealsForCurrentPlan == old(mealsForCurrentPlan) && selectedMealId == old(selectedMealId)
    {
      store.AddItemToMeal(mealId, Some(foodId), None, quantity, servingSize, freshItemId);
      message := Some(FoodAdded);
      LoadMealItems(mealId);
    }

    /** `addRecipeToMeal`: a recipe item whose quantity is the number of
        servings and whose serving size is 1. */
    method AddRecipeToMeal(mealId: string, recipeId: string, servings: real, freshItemId: string)
      requires Valid()
      modifies this, store
      ensures Valid() && store.plans == old(store.plans) && store.meals == old(store.meals)
      ensures store.items == old(store.items)[(freshItemId, mealId) :=
                MealItem(freshItemId, mealId, None, Some(recipeId), servings, 1.0, false)]
      ensures message == Some(RecipeAdded)
      ensures ShowsMealItems(mealItems, store.items, foodTable.foods, recipeTable.recipes, mealId)
      ensures selectedDate == old(selectedDate) && currentMealPlan == old(currentMealPlan)
      ensures mealsForCurrentPlan == old(mealsForCurrentPlan) && selectedMealId == old(selectedMealId)
    {
      store.AddItemToMeal(mealId, None, Some(recipeId), servings, 1.0, freshItemId);
      message := Some(RecipeAdded);
      LoadMealItems(mealId);
    }

    /** `updateMealItem`: only quantity and serving size change, and the
        row becomes unsynced; the selected meal's items are reloaded. */
    method UpdateMealItem(mealItem: MealItem, quantity: real, servingSize: real)
      requires Valid()
      modifies this, store
      ensures Valid() && store.plans == old(store.plans) && store.meals == old(store.meals)
      ensures var updated := mealItem.(quantity := quantity, servingSize := servingSize, isSynced := false);
        store.items == if mealItem.Key() in old(store.items) then old(store.items)[mealItem.Key() := updated]
                       else old(store.items)
      ensures message == Some(ItemUpdated) && selectedMealId == old(selectedMealId)
      ensures selectedDate == old(selectedDate) && currentMealPlan == old(currentMealPlan)
      ensures mealsForCurrentPlan == old(mealsForCurrentPlan)
      ensures selectedMealId.Some? ==>
                ShowsMealItems(mealItems, store.items, foodTable.foods, recipeTable.recipes, selectedMealId.value)
      ensures selectedMealId.None? ==> mealItems == old(mealItems)
    {
      var updated := mealItem.(quantity := quantity, servingSize := servingSize, isSynced := false);
      store.UpdateMealItem(updated);
      message := Some(ItemUpdated);
      if selectedMealId.Some? {
        LoadMealItems(selectedMealId.value);
      }
    }

    /** `deleteMealItem`: only an item currently shown can be removed; the
        selected meal's items are then reloaded. */
    method DeleteMealItem(mealItemId: string)
      requires Valid()
      modifies this, store
      ensures Valid() && store.plans == old(store.plans) && store.meals == old(store.meals)
      ensures var found := FindShownItem(old(mealItems), mealItemId);
        (found.Some? ==> message == Some(ItemDeleted) && store.items == old(store.items) - {found.value.Key()}) &&
        (found.None? ==> message == Some(ItemNotFound) && store.items == old(store.items) && mealItems == old(mealItems))
      ensures selectedDate == old(selectedDate) && currentMealPlan == old(currentMealPlan)
      ensures mealsForCurrentPlan == old(mealsForCurrentPlan) && selectedMealId == old(selectedMealId)
      ensures FindShownItem(old(mealItems), mealItemId).Some? && selectedMealId.Some? ==>
                ShowsMealItems(mealItems, store.items, foodTable.foods, recipeTable.recipes, selectedMealId.value)
      ensures selectedMealId.None? ==> mealItems == old(mealItems)
    {
      var found := FindShownItem(mealItems, mealItemId);
      if found.Some? {
        store.RemoveMealItem(found.value);
        message := Some(ItemDeleted);
        if selectedMealId.Some? {
          LoadMealItems(selectedMealId.value);
        }
      } else {
        message := Some(ItemNotFound);
      }
    }

    /** `clearMessage`. */
    method ClearMessage()
      modifies this
      ensures message.None?
      ensures selectedDate == old(selectedDate) && currentMealPlan == old(currentMealPlan)
      ensures mealsForCurrentPlan == old(mealsForCurrentPlan) && selectedMealId == old(selectedMealId)
      ensures mealItems == old(mealItems)
    {
      message := None;
    }
  }
}
