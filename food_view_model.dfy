/** The food-search screen's state: the query, the online results, a
    loading flag and a message whose repeats are throttled. The clock is a
    parameter of each operation that reads it. */
module FoodViewModel {
  import opened Common
  import opened Entities
  import opened FoodStore
  import opened Queries
  import opened ApiModels

  const NoOnlineResult: string := "Aucun résultat trouvé en ligne"
  const FavoriteFailed: string := "Erreur lors de la modification"
  const FoodAddedMessage: string := "Aliment ajouté avec succès"
  const AddFailedPrefix: string := "Erreur lors de l'ajout: "

  /** The minimum gap, in milliseconds, before the same message is shown again. */
  const RepeatGap: int := 3000

  /** A message is shown when it differs from the last one shown, or when
      more than the gap has passed since then. */
  predicate Emits(lastMessage: Option<string>, lastMessageTime: int, newMessage: string, now: int)
  {
    lastMessage != Some(newMessage) || now - lastMessageTime > RepeatGap
  }

  /** The id of a food entered by hand: its name with spaces as
      underscores, lower-cased, between "custom_" and the creation time. */
  function CustomFoodId(name: string, now: nat): string
  {
    "custom_" + Lowercase(ReplaceSpaces(name)) + "_" + Decimal(now)
  }

  /** The record `addCustomFood` builds. */
  function CustomFood(name: string, calories: int, protein: real, carbs: real, fat: real, fiber: real,
                      sugar: real, servingSize: real, servingUnit: string, now: nat): (f: Food)
    ensures f.id == CustomFoodId(name, now) && f.name == name && f.calories == calories
    ensures f.protein == protein && f.carbs == carbs && f.fat == fat && f.fiber == fiber && f.sugar == sugar
    ensures f.servingSize == servingSize && f.servingUnit == servingUnit
    ensures f.servingSizeOptions == [servingSize] && !f.isSynced && !f.favorite
    ensures f.imageUrl.None? && f.apiId.None? && f.lastUsed == 0
  {
    Food(CustomFoodId(name, now), name, calories, protein, carbs, fat, fiber, sugar, servingSize, servingUnit,
         None, false, 0, [servingSize], None, false)
  }

  class FoodSearchScreen {
    const foodTable: FoodTable
    var searchQuery: string
    var isLoading: bool
    var onlineSearchResults: seq<Food>
    var message: Option<string>
    var lastMessage: Option<string>
    var lastMessageTime: int

    ghost predicate Valid()
      reads this, foodTable
    {
      foodTable.Valid()
    }

    constructor(foodTable: FoodTable)
      requires foodTable.Valid()
      ensures Valid() && this.foodTable == foodTable
      ensures searchQuery == "" && !isLoading && onlineSearchResults == []
      ensures message.None? && lastMessage.None? && lastMessageTime == 0
    {
      this.foodTable := foodTable;
      searchQuery := "";
      isLoading := false;
      onlineSearchResults := [];
      message := None;
      lastMessage := None;
      lastMessageTime := 0;
    }

    /** What `showMessage(newMessage)` at time `now` leaves in the three
        message fields: the message and its time when the throttle lets it
        through, the previous fields otherwise. */
    twostate predicate Throttled(newMessage: string, now: int)
      reads this
    {
      (Emits(old(lastMessage), old(lastMessageTime), newMessage, now) ==>
         message == Some(newMessage) && lastMessage == Some(newMessage) && lastMessageTime == now) &&
      (!Emits(old(lastMessage), old(lastMessageTime), newMessage, now) ==> MessageKept())
    }

    /** None of the three message fields changed. */
    twostate predicate MessageKept()
      reads this
    {
      message == old(message) && lastMessage == old(lastMessage) && lastMessageTime == old(lastMessageTime)
    }

    /** `showMessage`: the throttle. */
    method ShowMessage(newMessage: string, now: int)
      modifies this
      ensures Throttled(newMessage, now)
      ensures searchQuery == old(searchQuery) && isLoading == old(isLoading)
      ensures onlineSearchResults == old(onlineSearchResults)
    {
      if lastMessage != Some(newMessage) || now - lastMessageTime > RepeatGap {
        message := Some(newMessage);
        lastMessage := Some(newMessage);
        lastMessageTime := now;
      }
    }

    /** `clearMessage`: the throttle forgets the last message. */
    method ClearMessage()
      modifies this
      ensures message.None? && lastMessage.None? && lastMessageTime == 0
      ensures searchQuery == old(searchQuery) && isLoading == old(isLoading)
      ensures onlineSearchResults == old(onlineSearchResults)
    {
      message := None;
      lastMessage := None;
      lastMessageTime := 0;
    }

    /** `searchFoods`: the query is always stored; an online search runs
        only when asked for and the query is not empty. The online search
        answers with an empty list exactly when the service answered with
        no hints, and the screen then says so. */
    method SearchFoods(query: string, searchOnline: bool, response: ApiResponse,
                       hitsInsertFails: bool, demoInsertFails: bool, now: int)
      requires Valid()
      modifies this, foodTable
      ensures Valid() && searchQuery == query
      ensures !(searchOnline && query != "") ==>
                foodTable.foods == old(foodTable.foods) && onlineSearchResults == old(onlineSearchResults) &&
                MessageKept() && isLoading == old(isLoading)
      ensures searchOnline && query != "" ==>
                !isLoading &&
                (onlineSearchResults == [] <==> response.Success? && (response.hints.None? || response.hints.value == [])) &&
                (onlineSearchResults == [] ==> Throttled(NoOnlineResult, now)) &&
                (onlineSearchResults != [] ==> MessageKept())
      // the online results and what the search stored
      ensures searchOnline && query != "" && response.Success? && response.hints.None? ==>
                foodTable.foods == old(foodTable.foods)
      ensures searchOnline && query != "" && response.Success? && response.hints.Some? &&
              (response.hints.value == [] || !hitsInsertFails) ==>
                onlineSearchResults == ToFoods(response.hints.value) &&
                foodTable.foods == UpsertAll(old(foodTable.foods), onlineSearchResults, FoodKey)
      ensures searchOnline && query != "" && FallsBackToDemo(response, hitsInsertFails) ==>
                onlineSearchResults == DemoFoods(query) &&
                foodTable.foods == if demoInsertFails then old(foodTable.foods)
                                   else UpsertAll(old(foodTable.foods), DemoFoods(query), FoodKey)
    {
      searchQuery := query;
      if searchOnline && query != "" {
        isLoading := true;
        var results := foodTable.SearchFoodsOnline(query, response, hitsInsertFails, demoInsertFails);
        onlineSearchResults := results;
        if results == [] {
          ShowMessage(NoOnlineResult, now);
        }
        isLoading := false;
      }
    }

    /** `toggleFavorite`: asks for the negation of the flag the caller
        holds; a database failure is reported through the throttle. */
    method ToggleFavorite(food: Food, dbFails: bool, now: int)
      requires Valid()
      modifies this, foodTable
      ensures Valid()
      ensures !dbFails ==>
                foodTable.foods.Keys == old(foodTable.foods).Keys &&
                (food.id in foodTable.foods ==>
                  foodTable.foods[food.id] == old(foodTable.foods)[food.id].(favorite := !food.favorite)) &&
                (forall k :: k in foodTable.foods && k != food.id ==> foodTable.foods[k] == old(foodTable.foods)[k]) &&
                MessageKept()
      ensures dbFails ==> foodTable.foods == old(foodTable.foods) && Throttled(FavoriteFailed, now)
      ensures searchQuery == old(searchQuery) && isLoading == old(isLoading)
      ensures onlineSearchResults == old(onlineSearchResults)
    {
      if dbFails {
        ShowMessage(FavoriteFailed, now);
      } else {
        foodTable.ToggleFavorite(food.id, !food.favorite);
      }
    }

    /** `addCustomFood`: upserts the built record; `errorText` stands for
        the exception's message when the insert fails. */
    method AddCustomFood(name: string, calories: int, protein: real, carbs: real, fat: real, fiber: real,
                         sugar: real, servingSize: real, servingUnit: string, now: nat,
                         dbFails: bool, errorText: string)
      requires Valid()
      modifies this, foodTable
      ensures Valid()
      ensures !dbFails ==>
                foodTable.foods == old(foodTable.foods)[CustomFoodId(name, now) :=
                  CustomFood(name, calories, protein, carbs, fat, fiber, sugar, servingSize, servingUnit, now)]
      ensures dbFails ==> foodTable.foods == old(foodTable.foods)
      ensures Throttled(if dbFails then AddFailedPrefix + errorText else FoodAddedMessage, now)
      ensures searchQuery == old(searchQuery) && isLoading == old(isLoading)
      ensures onlineSearchResults == old(onlineSearchResults)
    {
      var food := CustomFood(name, calories, protein, carbs, fat, fiber, sugar, servingSize, servingUnit, now);
      if dbFails {
        ShowMessage(AddFailedPrefix + errorText, now);
      } else {
        foodTable.InsertFood(food);
        ShowMessage(FoodAddedMessage, now);
      }
    }

    /** `addCustomFoodDirect`: inserts only when no food has that id; every
        failure is swallowed. */
    method AddCustomFoodDirect(food: Food, dbFails: bool)
      requires Valid()
      modifies foodTable
      ensures Valid()
      ensures !dbFails && food.id !in old(foodTable.foods) ==> foodTable.foods == old(foodTable.foods)[food.id := food]
      ensures dbFails || food.id in old(foodTable.foods) ==> foodTable.foods == old(foodTable.foods)
    {
      if !dbFails {
        var existing := foodTable.FoodById(food.id);
        if existing.None? {
          foodTable.InsertFood(food);
        }
      }
    }
  }

  /** Calling `addCustomFoodDirect` twice is calling it once. */
  method AddCustomFoodDirectTwice(screen: FoodSearchScreen, food: Food)
    requires screen.Valid()
    modifies screen.foodTable
    ensures food.id !in old(screen.foodTable.foods) ==> screen.foodTable.foods == old(screen.foodTable.foods)[food.id := food]
    ensures food.id in old(screen.foodTable.foods) ==> screen.foodTable.foods == old(screen.foodTable.foods)
  {
    screen.AddCustomFoodDirect(food, false);
    screen.AddCustomFoodDirect(food, false);
  }

  /** Within the gap, the message just shown is not shown again; a
      different message, or the same one after the gap, is. */
  lemma {:induction false} ThrottleWindow(m: string, other: string, t: int, later: int)
    requires m != other
    ensures later - t <= RepeatGap ==> !Emits(Some(m), t, m, later)
    ensures later - t > RepeatGap ==> Emits(Some(m), t, m, later)
    ensures Emits(Some(m), t, other, later)
  {
  }

  /** Two custom foods with the same name entered at different times get
      different ids. */
  lemma CustomIdsDifferInTime(name: string, t1: nat, t2: nat)
    requires t1 != t2
    ensures CustomFoodId(name, t1) != CustomFoodId(name, t2)
  {
    var p := "custom_" + Lowercase(ReplaceSpaces(name)) + "_";
    assert CustomFoodId(name, t1) == p + Decimal(t1);
    assert CustomFoodId(name, t2) == p + Decimal(t2);
    if p + Decimal(t1) == p + Decimal(t2) {
      assert (p + Decimal(t1))[|p|..] == Decimal(t1);
      assert (p + Decimal(t2))[|p|..] == Decimal(t2);
      DigitsOfDecimal(t1);
      DigitsOfDecimal(t2);
      assert false;
    }
  }

  /** A name with a space and the same name with an underscore collide
      when entered in the same millisecond. */
  lemma CustomIdsCollideOnSpaces(now: nat)
    ensures CustomFoodId("a b", now) == CustomFoodId("a_b", now)
  {
    assert ReplaceSpaces("a b") == "a_b";
    assert ReplaceSpaces("a_b") == "a_b";
  }
}
