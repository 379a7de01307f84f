/** The food table and its repository: upserts by id, the favourite flag,
    name-ordered queries, the LIKE search, the online search with its
    demo fallback, and the sync helpers. */
module FoodStore {
  import opened Common
  import opened Entities
  import opened Queries
  import opened ApiModels

  function FoodKey(f: Food): string { f.id }

  /** `ORDER BY name ASC`. */
  predicate FoodNameLe(a: Food, b: Food) { StrLessEq(a.name, b.name) }

  lemma FoodNameLeOrders()
    ensures TotalPreorder(FoodNameLe)
  {
    forall a: Food, b: Food ensures FoodNameLe(a, b) || FoodNameLe(b, a) {
      StrLessEqTotal(a.name, b.name);
    }
    forall a: Food, b: Food, c: Food | FoodNameLe(a, b) && FoodNameLe(b, c) ensures FoodNameLe(a, c) {
      StrLessEqTransitive(a.name, b.name, c.name);
    }
  }

  predicate IsFavoriteFood(f: Food) { f.favorite }
  predicate IsUnsyncedFood(f: Food) { !f.isSynced }
  predicate AnyFood(f: Food) { true }

  /** `name LIKE '%' || query || '%'`. */
  function FoodNameMatches(query: string): Food -> bool
  {
    (f: Food) => Like(f.name, "%" + query + "%")
  }

  /** `UPDATE foods SET isSynced = 1 WHERE id IN (ids)`. */
  function MarkFoodsSynced(table: map<string, Food>, ids: seq<string>): (r: map<string, Food>)
    ensures r.Keys == table.Keys
    ensures forall k :: k in table ==> r[k] == (if table[k].id in ids then table[k].(isSynced := true) else table[k])
  {
    map k | k in table :: if table[k].id in ids then table[k].(isSynced := true) else table[k]
  }

  /** How the food search API answered: no answer (an exception), an
      unsuccessful HTTP status, or a body whose hint list may be null. */
  datatype ApiResponse = Unreachable | HttpError(code: int) | Success(hints: Option<seq<FoodData>>)

  /** The two placeholder foods returned whenever the online search fails. */
  function DemoFoods(query: string): (r: seq<Food>)
    ensures |r| == 2
    ensures r[0].id == "demo_" + query + "_1" && r[1].id == "demo_" + query + "_2"
    ensures r[0].name == query + " (Demo)" && r[1].name == query + " cuit (Demo)"
    ensures r[0].calories == 100 && r[1].calories == 120
    ensures r[0].protein == 5.0 && r[0].carbs == 15.0 && r[0].fat == 2.0 && r[0].fiber == 3.0 && r[0].sugar == 8.0
    ensures r[1].protein == 6.0 && r[1].carbs == 18.0 && r[1].fat == 3.0 && r[1].fiber == 2.0 && r[1].sugar == 5.0
    ensures forall i :: 0 <= i < 2 ==>
      r[i].servingSize == 100.0 && r[i].servingUnit == "g" && r[i].imageUrl.None? && !r[i].favorite &&
      r[i].lastUsed == 0 && r[i].servingSizeOptions == [100.0] && r[i].apiId.None? && !r[i].isSynced
  {
    [Food("demo_" + query + "_1", query + " (Demo)", 100, 5.0, 15.0, 2.0, 3.0, 8.0, 100.0, "g",
          None, false, 0, [100.0], None, false),
     Food("demo_" + query + "_2", query + " cuit (Demo)", 120, 6.0, 18.0, 3.0, 2.0, 5.0, 100.0, "g",
          None, false, 0, [100.0], None, false)]
  }

  /** The two demo ids never collide, whatever the query. */
  lemma DemoIdsDistinct(query: string)
    ensures DemoFoods(query)[0].id != DemoFoods(query)[1].id
  {
    var a, b := DemoFoods(query)[0].id, DemoFoods(query)[1].id;
    assert a[|a| - 1] == '1' && b[|b| - 1] == '2';
  }

  function ToFoods(hits: seq<FoodData>): (r: seq<Food>)
    ensures |r| == |hits|
    ensures forall i :: 0 <= i < |hits| ==> r[i] == ToFood(hits[i])
  {
    if hits == [] then [] else ToFoods(hits[..|hits| - 1]) + [ToFood(hits[|hits| - 1])]
  }

  /** The success path's `forEach { foodList.add(it.food.toFood()) }`. */
  method ConvertHits(items: seq<FoodData>) returns (foodList: seq<Food>)
    ensures foodList == ToFoods(items)
  {
    foodList := [];
    var i := 0;
    while i < |items|
      invariant 0 <= i <= |items|
      invariant foodList == ToFoods(items[..i])
    {
      assert items[..i + 1][..i] == items[..i];
      foodList := foodList + [ToFood(items[i])];
      i := i + 1;
    }
    assert items[..|items|] == items;
  }

  class FoodTable {
    var foods: map<string, Food>

    /** Every row is stored under its own id. */
    ghost predicate Valid()
      reads this
    {
      forall k :: k in foods ==> foods[k].id == k
    }

    constructor()
      ensures foods == map[] && Valid()
    {
      foods := map[];
    }

    /** `getFoodById`. */
    function FoodById(id: string): (r: Option<Food>)
      reads this
      requires Valid()
      ensures r.Some? <==> id in foods
      ensures r.Some? ==> r.value == foods[id] && r.value.id == id
    {
      if id in foods then Some(foods[id]) else None
    }

    /** `insertFood`: REPLACE on the id. */
    method InsertFood(food: Food)
      requires Valid()
      modifies this
      ensures Valid()
      ensures foods == old(foods)[food.id := food]
    {
      foods := foods[food.id := food];
    }

    /** `insertFoods`: each row replaces the one with its id; among listed
        rows sharing an id the last wins. */
    method InsertFoods(list: seq<Food>)
      requires Valid()
      modifies this
      ensures Valid()
      ensures foods == UpsertAll(old(foods), list, FoodKey)
    {
      var i := 0;
      while i < |list|
        invariant 0 <= i <= |list|
        invariant Valid()
        invariant foods == UpsertAll(old(foods), list[..i], FoodKey)
      {
        assert list[..i + 1][..i] == list[..i];
        foods := foods[list[i].id := list[i]];
        i := i + 1;
      }
      assert list[..|list|] == list;
    }

    /** `@Update`: replaces the row with that id, if there is one. */
    method UpdateFood(food: Food)
      requires Valid()
      modifies this
      ensures Valid()
      ensures food.id in old(foods) ==> foods == old(foods)[food.id := food]
      ensures food.id !in old(foods) ==> foods == old(foods)
    {
      if food.id in foods {
        foods := foods[food.id := food];
      }
    }

    /** `@Delete`: by primary key only. */
    method DeleteFood(food: Food)
      requires Valid()
      modifies this
      ensures Valid()
      ensures foods == old(foods) - {food.id}
    {
      foods := foods - {food.id};
    }

    /** `updateFavoriteStatus`: only the favourite field of that one row. */
    method ToggleFavorite(foodId: string, isFavorite: bool)
      requires Valid()
      modifies this
      ensures Valid()
      ensures foods.Keys == old(foods).Keys
      ensures foodId in foods ==> foods[foodId] == old(foods)[foodId].(favorite := isFavorite)
      ensures forall k :: k in foods && k != foodId ==> foods[k] == old(foods)[k]
    {
      if foodId in foods {
        foods := foods[foodId := foods[foodId].(favorite := isFavorite)];
      }
    }

    /** `getAllFoods`. */
    method GetAllFoods() returns (r: seq<Food>)
      ensures forall f :: f in r <==> f in foods.Values
      ensures NoDuplicates(r) && SortedBy(r, FoodNameLe)
    {
      FoodNameLeOrders();
      r := SelectSorted(foods, AnyFood, FoodNameLe);
    }

    /** `getFavoriteFoods`. */
    method GetFavoriteFoods() returns (r: seq<Food>)
      ensures forall f :: f in r <==> f in foods.Values && f.favorite
      ensures NoDuplicates(r) && SortedBy(r, FoodNameLe)
    {
      FoodNameLeOrders();
      r := SelectSorted(foods, IsFavoriteFood, FoodNameLe);
    }

    /** `searchFoods`: the query's own `%` and `_` are wildcards too. */
    method SearchFoods(query: string) returns (r: seq<Food>)
      ensures forall f :: f in r <==> f in foods.Values && Like(f.name, "%" + query + "%")
      ensures NoDuplicates(r) && SortedBy(r, FoodNameLe)
    {
      FoodNameLeOrders();
      r := SelectSorted(foods, FoodNameMatches(query), FoodNameLe);
    }

    /** `searchLocalFoods`: a blank query lists everything. */
    method SearchLocalFoods(query: string) returns (r: seq<Food>)
      ensures IsBlank(query) ==> forall f :: f in r <==> f in foods.Values
      ensures !IsBlank(query) ==> forall f :: f in r <==> f in foods.Values && Like(f.name, "%" + query + "%")
      ensures NoDuplicates(r) && SortedBy(r, FoodNameLe)
    {
      if IsBlank(query) {
        r := GetAllFoods();
      } else {
        r := SearchFoods(query);
      }
    }

    /** `getUnsyncedFoods`: a read failure yields the empty list. */
    method GetUnsyncedFoods(readFails: bool) returns (r: seq<Food>)
      ensures readFails ==> r == []
      ensures !readFails ==> forall f :: f in r <==> f in foods.Values && !f.isSynced
      ensures NoDuplicates(r)
    {
      if readFails {
        r := [];
      } else {
        r := Select(foods, IsUnsyncedFood);
      }
    }

    /** `markFoodsAsSynced`: a write failure is swallowed. */
    method MarkFoodsAsSynced(ids: seq<string>, writeFails: bool)
      requires Valid()
      modifies this
      ensures Valid()
      ensures writeFails ==> foods == old(foods)
      ensures !writeFails ==> foods == MarkFoodsSynced(old(foods), ids)
    {
      if !writeFails {
        foods := MarkFoodsSynced(foods, ids);
      }
    }

    /** `getDemoFoodSearchResults`: upsert the two demo foods (a failure is
        swallowed) and return them. */
    method DemoFoodSearchResults(query: string, insertFails: bool) returns (r: seq<Food>)
      requires Valid()
      modifies this
      ensures Valid()
      ensures r == DemoFoods(query)
      ensures insertFails ==> foods == old(foods)
      ensures !insertFails ==> foods == UpsertAll(old(foods), r, FoodKey)
    {
      r := DemoFoods(query);
      if !insertFails {
        InsertFoods(r);
      }
    }

    /** `searchFoodsOnline`: never fails. A successful answer is converted in
        order and upserted when non-empty; a failed request, or a failed
        insert of the hits, gives the demo results, whose own insert can
        fail independently. */
    method SearchFoodsOnline(query: string, response: ApiResponse, hitsInsertFails: bool, demoInsertFails: bool)
      returns (r: seq<Food>)
      requires Valid()
      modifies this
      ensures Valid()
      ensures response.Success? && response.hints.None? ==> r == [] && foods == old(foods)
      ensures response.Success? && response.hints.Some? && (response.hints.value == [] || !hitsInsertFails) ==>
                r == ToFoods(response.hints.value) && foods == UpsertAll(old(foods), r, FoodKey)
      ensures FallsBackToDemo(response, hitsInsertFails) ==> r == DemoFoods(query)
      ensures FallsBackToDemo(response, hitsInsertFails) && demoInsertFails ==> foods == old(foods)
      ensures FallsBackToDemo(response, hitsInsertFails) && !demoInsertFails ==>
                foods == UpsertAll(old(foods), DemoFoods(query), FoodKey)
    {
      match response {
        case Success(hints) =>
          var foodList := ConvertHits(if hints.Some? then hints.value else []);
          if foodList != [] && hitsInsertFails {
            r := DemoFoodSearchResults(query, demoInsertFails);
          } else {
            if foodList != [] {
              InsertFoods(foodList);
            }
            r := foodList;
          }
        case _ =>
          r := DemoFoodSearchResults(query, demoInsertFails);
      }
    }
  }

  /** The cases in which the online search answers with the demo foods: the
      request failed, or its non-empty hits could not be stored. */
  predicate FallsBackToDemo(response: ApiResponse, hitsInsertFails: bool)
  {
    !response.Success? || (response.hints.Some? && response.hints.value != [] && hitsInsertFails)
  }

  /** Marking the ids of every unsynced food leaves no food unsynced, and
      only the isSynced fields change. */
  lemma MarkAllUnsyncedFoods(table: map<string, Food>, ids: seq<string>)
    requires forall k :: k in table ==> table[k].id == k
    requires forall k :: k in table && !table[k].isSynced ==> k in ids
    ensures var r := MarkFoodsSynced(table, ids);
      (forall k :: k in r ==> r[k].isSynced) &&
      (forall k :: k in r ==> r[k] == table[k].(isSynced := r[k].isSynced))
  {
  }

  /** Marking is idempotent, and marking nothing changes nothing. */
  lemma MarkFoodsSyncedIdempotent(table: map<string, Food>, ids: seq<string>)
    ensures MarkFoodsSynced(MarkFoodsSynced(table, ids), ids) == MarkFoodsSynced(table, ids)
    ensures MarkFoodsSynced(table, []) == table
  {
  }
}
