/** The meal-plan, meal and meal-item tables and their repository: one
    plan per day created on demand, meals and items inserted with fresh
    ids, a meal's deletion cascading to its items, and the sync helpers.
    The day boundary comes from the device calendar and time zone, so
    `startOfDay` is a parameter of the table. */
module MealPlanStore {
  import opened Common
  import opened Entities
  import opened Queries

  /** `ORDER BY date ASC` and `ORDER BY time ASC`. */
  predicate DateLe(a: MealPlan, b: MealPlan) { a.date <= b.date }
  predicate TimeLe(a: Meal, b: Meal) { a.time <= b.time }

  lemma NumericOrders()
    ensures TotalPreorder(DateLe) && TotalPreorder(TimeLe)
  {
  }

  function DateBetween(startDate: int, endDate: int): MealPlan -> bool
  {
    (p: MealPlan) => startDate <= p.date <= endDate
  }

  function InPlan(mealPlanId: string): Meal -> bool
  {
    (m: Meal) => m.mealPlanId == mealPlanId
  }

  function InMeal(mealId: string): MealItem -> bool
  {
    (i: MealItem) => i.mealId == mealId
  }

  predicate IsUnsyncedPlan(p: MealPlan) { !p.isSynced }
  predicate IsUnsyncedMeal(m: Meal) { !m.isSynced }
  predicate IsUnsyncedItem(i: MealItem) { !i.isSynced }

  /** `DELETE FROM meal_items WHERE mealId = :mealId`. */
  function WithoutItemsOf(table: map<(string, string), MealItem>, mealId: string)
    : (r: map<(string, string), MealItem>)
    ensures forall k :: k in r <==> k in table && table[k].mealId != mealId
    ensures forall k :: k in r ==> r[k] == table[k]
  {
    map k | k in table && table[k].mealId != mealId :: table[k]
  }

  function MarkPlansSynced(table: map<string, MealPlan>, ids: seq<string>): (r: map<string, MealPlan>)
    ensures r.Keys == table.Keys
    ensures forall k :: k in table ==> r[k] == (if table[k].id in ids then table[k].(isSynced := true) else table[k])
  {
    map k | k in table :: if table[k].id in ids then table[k].(isSynced := true) else table[k]
  }

  function MarkMealsSynced(table: map<string, Meal>, ids: seq<string>): (r: map<string, Meal>)
    ensures r.Keys == table.Keys
    ensures forall k :: k in table ==> r[k] == (if table[k].id in ids then table[k].(isSynced := true) else table[k])
  {
    map k | k in table :: if table[k].id in ids then table[k].(isSynced := true) else table[k]
  }

  /** `UPDATE meal_items SET isSynced = 1 WHERE id IN (ids)`: the item id
      alone is matched, so an id shared by items of several meals marks
      all of them. */
  function MarkItemsSynced(table: map<(string, string), MealItem>, ids: seq<string>)
    : (r: map<(string, string), MealItem>)
    ensures r.Keys == table.Keys
    ensures forall k :: k in table ==> r[k] == (if table[k].id in ids then table[k].(isSynced := true) else table[k])
  {
    map k | k in table :: if table[k].id in ids then table[k].(isSynced := true) else table[k]
  }

  /** The plan table before and after `getMealPlanForDate` for `day` (the
      start of the requested day), `plan` being its answer: the stored plan
      of that day when there is one, with nothing written; otherwise a new
      unsynced plan stored under `freshId`. */
  ghost predicate PlanFetched(before: map<string, MealPlan>, after: map<string, MealPlan>, day: int,
                              freshId: string, plan: MealPlan)
  {
    plan.date == day && plan in after.Values &&
    ((exists p :: p in before.Values && p.date == day) ==> after == before) &&
    ((forall p :: p in before.Values ==> p.date != day) ==>
       plan == MealPlan(freshId, day, false) && after == before[freshId := plan])
  }

  /** Fetching the same day twice with the same fresh id writes no more than
      fetching it once, and the second answer is a plan the first fetch
      alone could have returned. */
  lemma PlanFetchedTwice(t0: map<string, MealPlan>, t1: map<string, MealPlan>, t2: map<string, MealPlan>,
                         day: int, freshId: string, p1: MealPlan, p2: MealPlan)
    requires PlanFetched(t0, t1, day, freshId, p1) && PlanFetched(t1, t2, day, freshId, p2)
    ensures PlanFetched(t0, t2, day, freshId, p2)
  {
    if forall p :: p in t0.Values ==> p.date != day {
      var k :| k in t2 && t2[k] == p2;
      assert k == freshId;
    }
  }

  class MealPlanTable {
    const startOfDay: int -> int
    var plans: map<string, MealPlan>
    var meals: map<string, Meal>
    var items: map<(string, string), MealItem>

    /** Every row is stored under its primary key; items under (id, mealId). */
    ghost predicate Valid()
      reads this
    {
      (forall k :: k in plans ==> plans[k].id == k) &&
      (forall k :: k in meals ==> meals[k].id == k) &&
      (forall k :: k in items ==> items[k].Key() == k)
    }

    /** No two plans share a date (nothing in the schema enforces it). */
    ghost predicate OnePlanPerDay()
      reads this
    {
      forall a, b :: a in plans && b in plans && plans[a].date == plans[b].date ==> a == b
    }

    constructor(startOfDay: int -> int)
      ensures this.startOfDay == startOfDay
      ensures plans == map[] && meals == map[] && items == map[]
      ensures Valid() && OnePlanPerDay()
    {
      this.startOfDay := startOfDay;
      plans, meals, items := map[], map[], map[];
    }

    /** `getMealById`. */
    function MealById(id: string): (r: Option<Meal>)
      reads this
      requires Valid()
      ensures r.Some? <==> id in meals
      ensures r.Some? ==> r.value == meals[id] && r.value.id == id
    {
      if id in meals then Some(meals[id]) else None
    }

    /** `getMealPlanForDate`: the plan whose date is exactly the start of
        that day, created (with `freshId`) only if there is none. */
    method GetMealPlanForDate(date: int, freshId: string) returns (plan: MealPlan)
      requires Valid()
      modifies this
      ensures Valid() && meals == old(meals) && items == old(items)
      ensures plan.date == startOfDay(date) && plan in plans.Values
      ensures (exists p :: p in old(plans).Values && p.date == startOfDay(date)) ==>
                plans == old(plans) && plan in old(plans).Values
      ensures (forall p :: p in old(plans).Values ==> p.date != startOfDay(date)) ==>
                plan == MealPlan(freshId, startOfDay(date), false) && plans == old(plans)[freshId := plan]
      ensures |plans| <= |old(plans)| + 1
      ensures old(OnePlanPerDay()) && freshId !in old(plans) ==> OnePlanPerDay()
      ensures OnePlanPerDay() ==> forall p :: p in plans.Values && p.date == startOfDay(date) ==> p == plan
    {
      var day := startOfDay(date);
      if exists p :: p in plans.Values && p.date == day {
        plan :| plan in plans.Values && plan.date == day;
      } else {
        plan := MealPlan(freshId, day, false);
        plans := plans[freshId := plan];
        assert plans[freshId] == plan;
      }
    }

    /** `getMealPlansBetweenDates`: both bounds inclusive. */
    method GetMealPlansBetweenDates(startDate: int, endDate: int) returns (r: seq<MealPlan>)
      ensures forall p :: p in r <==> p in plans.Values && startDate <= p.date <= endDate
      ensures NoDuplicates(r) && SortedBy(r, DateLe)
    {
      NumericOrders();
      r := SelectSorted(plans, DateBetween(startDate, endDate), DateLe);
    }

    /** `getMealsForMealPlan`. */
    method GetMealsForMealPlan(mealPlanId: string) returns (r: seq<Meal>)
      ensures forall m :: m in r <==> m in meals.Values && m.mealPlanId == mealPlanId
      ensures NoDuplicates(r) && SortedBy(r, TimeLe)
    {
      NumericOrders();
      r := SelectSorted(meals, InPlan(mealPlanId), TimeLe);
    }

    /** `getMealItemsForMeal`: no order. */
    method GetMealItemsForMeal(mealId: string) returns (r: seq<MealItem>)
      ensures forall i :: i in r <==> i in items.Values && i.mealId == mealId
      ensures NoDuplicates(r)
    {
      r := Select(items, InMeal(mealId));
    }

    /** `addMealToMealPlan`: one new meal under a fresh id; the plan id is
        not checked. */
    method AddMealToMealPlan(mealPlanId: string, mealType: MealType, time: int, name: string, notes: string,
                             freshId: string) returns (mealId: string)
      requires Valid()
      modifies this
      ensures Valid() && plans == old(plans) && items == old(items)
      ensures mealId == freshId
      ensures meals == old(meals)[freshId := Meal(freshId, mealPlanId, mealType, time, name, notes, false)]
    {
      meals := meals[freshId := Meal(freshId, mealPlanId, mealType, time, name, notes, false)];
      mealId := freshId;
    }

    /** `updateMeal` (`@Update`): only an existing row is replaced. */
    method UpdateMeal(meal: Meal)
      requires Valid()
      modifies this
      ensures Valid() && plans == old(plans) && items == old(items)
      ensures meal.id in old(meals) ==> meals == old(meals)[meal.id := meal]
      ensures meal.id !in old(meals) ==> meals == old(meals)
    {
      if meal.id in meals {
        meals := meals[meal.id := meal];
      }
    }

    /** `addItemToMeal`: one new item under (freshId, mealId); neither the
        meal nor the exactly-one-of food/recipe rule is checked. */
    method AddItemToMeal(mealId: string, foodId: Option<string>, recipeId: Option<string>,
                         quantity: real, servingSize: real, freshId: string)
      requires Valid()
      modifies this
      ensures Valid() && plans == old(plans) && meals == old(meals)
      ensures items == old(items)[(freshId, mealId) := MealItem(freshId, mealId, foodId, recipeId, quantity, servingSize, false)]
    {
      items := items[(freshId, mealId) := MealItem(freshId, mealId, foodId, recipeId, quantity, servingSize, false)];
    }

    /** `updateMealItem` (`@Update` on the composite key). */
    method UpdateMealItem(item: MealItem)
      requires Valid()
      modifies this
      ensures Valid() && plans == old(plans) && meals == old(meals)
      ensures item.Key() in old(items) ==> items == old(items)[item.Key() := item]
      ensures item.Key() !in old(items) ==> items == old(items)
    {
      if item.Key() in items {
        items := items[item.Key() := item];
      }
    }

    /** `removeMealItem` (`@Delete` on the composite key). */
    method RemoveMealItem(item: MealItem)
      requires Valid()
      modifies this
      ensures Valid() && plans == old(plans) && meals == old(meals)
      ensures items == old(items) - {item.Key()}
    {
      items := items - {item.Key()};
    }

    /** `deleteMeal`: every item of the meal, then the meal row. */
    method DeleteMeal(meal: Meal)
      requires Valid()
      modifies this
      ensures Valid() && plans == old(plans)
      ensures meals == old(meals) - {meal.id}
      ensures items == WithoutItemsOf(old(items), meal.id)
    {
      items := WithoutItemsOf(items, meal.id);
      meals := meals - {meal.id};
    }

    method GetUnsyncedMealPlans() returns (r: seq<MealPlan>)
      ensures forall p :: p in r <==> p in plans.Values && !p.isSynced
      ensures NoDuplicates(r)
    {
      r := Select(plans, IsUnsyncedPlan);
    }

    method GetUnsyncedMeals() returns (r: seq<Meal>)
      ensures forall m :: m in r <==> m in meals.Values && !m.isSynced
      ensures NoDuplicates(r)
    {
      r := Select(meals, IsUnsyncedMeal);
    }

    method GetUnsyncedMealItems() returns (r: seq<MealItem>)
      ensures forall i :: i in r <==> i in items.Values && !i.isSynced
      ensures NoDuplicates(r)
    {
      r := Select(items, IsUnsyncedItem);
    }

    method MarkMealPlansAsSynced(ids: seq<string>)
      requires Valid()
      modifies this
      ensures Valid() && meals == old(meals) && items == old(items)
      ensures plans == MarkPlansSynced(old(plans), ids)
    {
      plans := MarkPlansSynced(plans, ids);
    }

    method MarkMealsAsSynced(ids: seq<string>)
      requires Valid()
      modifies this
      ensures Valid() && plans == old(plans) && items == old(items)
      ensures meals == MarkMealsSynced(old(meals), ids)
    {
      meals := MarkMealsSynced(meals, ids);
    }

    method MarkMealItemsAsSynced(ids: seq<string>)
      requires Valid()
      modifies this
      ensures Valid() && plans == old(plans) && meals == old(meals)
      ensures items == MarkItemsSynced(old(items), ids)
    {
      items := MarkItemsSynced(items, ids);
    }
  }

  /** Two requests for the same day, with fresh ids, return the same plan
      and add at most one row. */
  method SameDaySamePlan(table: MealPlanTable, d1: int, d2: int, id1: string, id2: string)
    returns (p1: MealPlan, p2: MealPlan)
    requires table.Valid() && table.OnePlanPerDay()
    requires id1 !in table.plans && id2 !in table.plans && id1 != id2
    requires table.startOfDay(d1) == table.startOfDay(d2)
    modifies table
    ensures p1 == p2
    ensures |table.plans| <= |old(table.plans)| + 1
  {
    p1 := table.GetMealPlanForDate(d1, id1);
    ghost var afterFirst := table.plans;
    p2 := table.GetMealPlanForDate(d2, id2);
    assert table.plans == afterFirst;
  }

  /** Deleting a meal removes exactly its items; other meals' items stay. */
  lemma DeleteMealCascade(table: map<(string, string), MealItem>, mealId: string)
    ensures forall i :: i in WithoutItemsOf(table, mealId).Values <==> i in table.Values && i.mealId != mealId
  {
    var r := WithoutItemsOf(table, mealId);
    forall i | i in table.Values && i.mealId != mealId
      ensures i in r.Values
    {
      var k :| k in table && table[k] == i;
      assert r[k] == i;
    }
  }

  /** Marking an item id marks it in every meal that uses that id. */
  lemma ItemIdMarksEveryMeal(item: MealItem, other: MealItem)
    requires item.id == other.id && item.mealId != other.mealId
    ensures var r := MarkItemsSynced(map[item.Key() := item, other.Key() := other], [item.id]);
      r[item.Key()].isSynced && r[other.Key()].isSynced
  {
  }
}
