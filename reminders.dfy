/** The meal-reminder worker: every run either reminds one given meal of
    today's plan (a snoozed reminder) or every meal of today's plan whose
    time of day is within fifteen minutes of now. The clock, the fresh plan
    id and the failures of the database and of the rescheduling are
    parameters; the reminders sent are returned in the order sent. */
module MealReminders {
  import opened Common
  import opened Entities
  import opened MealPlanStore
  import opened MealValuation
  import opened Sync

  const DayMs: int := 24 * 60 * 60 * 1000
  const DueWindowMs: int := 15 * 60 * 1000

  /** `t % (24 * 60 * 60 * 1000)` on a `Long`: the remainder keeps the
      sign of `t`, so a time before the epoch gives a negative value. */
  function TimeOfDay(t: int): (r: int)
    ensures 0 <= t ==> 0 <= r < DayMs
    ensures t < 0 ==> -DayMs < r <= 0
  {
    Rem(t, DayMs)
  }

  /** A meal is due when its time of day and now's are at most fifteen
      minutes apart, the bound included; the comparison does not wrap
      around midnight. */
  predicate IsDue(now: int, mealTime: int)
  {
    Abs(TimeOfDay(now) - TimeOfDay(mealTime)) <= DueWindowMs
  }

  /** The time of day of a non-negative instant is its offset in its day. */
  lemma {:induction false} TimeOfDayOffset(day: nat, offset: int)
    requires 0 <= offset < DayMs
    ensures TimeOfDay(day * DayMs + offset) == offset
  {
    var t := day * DayMs + offset;
    var q := Div(t, DayMs);
    var r := Rem(t, DayMs);
    assert t == q * DayMs + r;
    assert (q - day) * DayMs == offset - r;
  }

  /** Whatever the days, a meal is due exactly when the offsets in their
      days are within the window of each other. */
  lemma {:induction false} DueByOffsets(nowDay: nat, mealDay: nat, nowOffset: int, mealOffset: int)
    requires 0 <= nowOffset < DayMs && 0 <= mealOffset < DayMs
    ensures IsDue(nowDay * DayMs + nowOffset, mealDay * DayMs + mealOffset) <==>
            -DueWindowMs <= nowOffset - mealOffset <= DueWindowMs
  {
    TimeOfDayOffset(nowDay, nowOffset);
    TimeOfDayOffset(mealDay, mealOffset);
  }

  /** 23:55 and 00:05 of the next day are ten minutes apart, yet the meal
      is not due. */
  lemma NoWrapAroundMidnight(day: nat)
    ensures !IsDue(day * DayMs + (23 * 60 + 55) * 60000, (day + 1) * DayMs + 5 * 60000)
  {
    DueByOffsets(day, day + 1, (23 * 60 + 55) * 60000, 5 * 60000);
  }

  /** Exactly fifteen minutes is still due; one millisecond more is not. */
  lemma WindowBoundary(day: nat)
    ensures IsDue(day * DayMs + 12 * 3600000, day * DayMs + 12 * 3600000 + DueWindowMs)
    ensures !IsDue(day * DayMs + 12 * 3600000, day * DayMs + 12 * 3600000 + DueWindowMs + 1)
  {
    DueByOffsets(day, day, 12 * 3600000, 12 * 3600000 + DueWindowMs);
    DueByOffsets(day, day, 12 * 3600000, 12 * 3600000 + DueWindowMs + 1);
  }

  /** The meals of `ms` that are due, in their order. */
  function DueMeals(ms: seq<Meal>, now: int): (r: seq<Meal>)
    ensures forall m :: m in r <==> m in ms && IsDue(now, m.time)
    ensures |r| <= |ms|
  {
    if ms == [] then []
    else
      var rest := DueMeals(ms[..|ms| - 1], now);
      assert forall m :: m in ms <==> m in ms[..|ms| - 1] || m == ms[|ms| - 1];
      if IsDue(now, ms[|ms| - 1].time) then rest + [ms[|ms| - 1]] else rest
  }

  /** The part of the worker's effect on the store that comes from
      `getMealPlanForDate(today)`, the repository rounding `today` down to
      the start of its day once more. */
  twostate predicate FetchedTodaysPlan(store: MealPlanTable, today: int, freshPlanId: string, plan: MealPlan)
    reads store
  {
    store.Valid() && store.meals == old(store.meals) && store.items == old(store.items) &&
    PlanFetched(old(store.plans), store.plans, store.startOfDay(today), freshPlanId, plan)
  }

  /** `checkTodaysMeals`: reminds every due meal of today's plan, and no
      other meal. A failure of the plan lookup or creation changes nothing;
      a failure of the meal query comes after the plan may have been
      created. Either is caught and reminds nothing. */
  method CheckTodaysMeals(store: MealPlanTable, now: int, freshPlanId: string,
                          planFetchFails: bool, mealsQueryFails: bool)
    returns (reminded: seq<Meal>, ghost plan: MealPlan)
    requires store.Valid()
    modifies store
    ensures store.Valid()
    ensures planFetchFails ==> reminded == [] && store.plans == old(store.plans) &&
                               store.meals == old(store.meals) && store.items == old(store.items)
    ensures !planFetchFails ==> FetchedTodaysPlan(store, store.startOfDay(now), freshPlanId, plan)
    ensures mealsQueryFails ==> reminded == []
    ensures !planFetchFails && !mealsQueryFails ==> forall m :: m in reminded <==>
              m in store.meals.Values && m.mealPlanId == plan.id && IsDue(now, m.time)
  {
    if planFetchFails {
      reminded, plan := [], MealPlan("", store.startOfDay(now), false);
      return;
    }
    var today := store.startOfDay(now);
    var todays := store.GetMealPlanForDate(today, freshPlanId);
    plan := todays;
    if mealsQueryFails {
      reminded := [];
      return;
    }
    var meals := store.GetMealsForMealPlan(todays.id);
    reminded := RemindDue(meals, now);
  }

  /** The loop of `checkTodaysMeals` over today's meals: exactly the due
      ones are reminded, in order. */
  method RemindDue(meals: seq<Meal>, now: int) returns (reminded: seq<Meal>)
    ensures reminded == DueMeals(meals, now)
  {
    reminded := [];
    var i := 0;
    while i < |meals|
      invariant 0 <= i <= |meals|
      invariant reminded == DueMeals(meals[..i], now)
    {
      assert meals[..i + 1][..i] == meals[..i];
      if IsDue(now, meals[i].time) {
        reminded := reminded + [meals[i]];
      }
      i := i + 1;
    }
    assert meals[..|meals|] == meals;
  }

  /** `handleSpecificMealReminder`: reminds the meal of today's plan with
      that id, if there is one; both database failures are caught as in
      `checkTodaysMeals`. */
  method HandleSpecificMealReminder(store: MealPlanTable, mealId: string, now: int, freshPlanId: string,
                                    planFetchFails: bool, mealsQueryFails: bool)
    returns (reminded: seq<Meal>, ghost plan: MealPlan)
    requires store.Valid()
    modifies store
    ensures store.Valid() && |reminded| <= 1
    ensures planFetchFails ==> reminded == [] && store.plans == old(store.plans) &&
                               store.meals == old(store.meals) && store.items == old(store.items)
    ensures !planFetchFails ==> FetchedTodaysPlan(store, store.startOfDay(now), freshPlanId, plan)
    ensures mealsQueryFails ==> reminded == []
    ensures !planFetchFails && !mealsQueryFails ==>
              (reminded == [] <==> forall m :: m in store.meals.Values && m.mealPlanId == plan.id ==> m.id != mealId)
    ensures reminded != [] ==>
              reminded[0].id == mealId && reminded[0] in store.meals.Values && reminded[0].mealPlanId == plan.id
  {
    if planFetchFails {
      reminded, plan := [], MealPlan("", store.startOfDay(now), false);
      return;
    }
    var today := store.startOfDay(now);
    var todays := store.GetMealPlanForDate(today, freshPlanId);
    plan := todays;
    if mealsQueryFails {
      reminded := [];
      return;
    }
    var meals := store.GetMealsForMealPlan(todays.id);
    var target := FindMeal(meals, mealId);
    if target.Some? {
      reminded := [target.value];
    } else {
      reminded := [];
    }
  }

  /** `doWork`: one of the two checks, then the next run is scheduled.
      Both checks catch their own errors, so only a failure to reschedule
      makes the run ask for a retry. `plan` is the plan of today the check
      fetched or created. */
  method DoWork(store: MealPlanTable, specificMealId: Option<string>, now: int, freshPlanId: string,
                planFetchFails: bool, mealsQueryFails: bool, rescheduleFails: bool)
    returns (result: WorkResult, reminded: seq<Meal>, ghost plan: MealPlan)
    requires store.Valid()
    modifies store
    ensures store.Valid() && store.meals == old(store.meals) && store.items == old(store.items)
    ensures result == WorkResult.Success <==> !rescheduleFails
    ensures planFetchFails ==> reminded == [] && store.plans == old(store.plans)
    ensures !planFetchFails ==> FetchedTodaysPlan(store, store.startOfDay(now), freshPlanId, plan)
    ensures mealsQueryFails ==> reminded == []
    ensures specificMealId.Some? ==> |reminded| <= 1 && forall m :: m in reminded ==> m.id == specificMealId.value
    ensures specificMealId.Some? && !planFetchFails && !mealsQueryFails ==>
              (reminded == [] <==>
                 forall m :: m in store.meals.Values && m.mealPlanId == plan.id ==> m.id != specificMealId.value)
    ensures specificMealId.None? && !planFetchFails && !mealsQueryFails ==>
              forall m :: m in reminded <==> m in store.meals.Values && m.mealPlanId == plan.id && IsDue(now, m.time)
    ensures specificMealId.None? ==> forall m :: m in reminded ==> IsDue(now, m.time)
    ensures forall m :: m in reminded ==>
              m in store.meals.Values && m.mealPlanId == plan.id && plan.id in store.plans &&
              store.plans[plan.id] == plan && plan.date == store.startOfDay(store.startOfDay(now))
  {
    if specificMealId.Some? {
      reminded, plan := HandleSpecificMealReminder(store, specificMealId.value, now, freshPlanId,
                                                   planFetchFails, mealsQueryFails);
    } else {
      reminded, plan := CheckTodaysMeals(store, now, freshPlanId, planFetchFails, mealsQueryFails);
    }
    if reminded != [] {
      ghost var k :| k in store.plans && store.plans[k] == plan;
      assert k == plan.id;
    }
    result := if rescheduleFails then WorkResult.Retry else WorkResult.Success;
  }
}
