/** The food search API's records and their conversion into a stored food. */
module ApiModels {
  import opened Common
  import opened Entities

  /** Nutrients per 100 g; a missing field reads as 0. */
  datatype Nutrients = Nutrients(calories: real, protein: real, fat: real, carbs: real, fiber: real, sugar: real)

  datatype ServingSize = ServingSize(uri: string, labelText: string, quantity: real)

  /** One hit of the search; `foodId` and `name` default to "". */
  datatype FoodData = FoodData(
    foodId: string,
    name: string,
    nutrients: Nutrients,
    image: Option<string>,
    servingSizes: Option<seq<ServingSize>>)

  function Quantities(sizes: seq<ServingSize>): (r: seq<real>)
    ensures |r| == |sizes|
    ensures forall i :: 0 <= i < |sizes| ==> r[i] == sizes[i].quantity
  {
    if sizes == [] then [] else [sizes[0].quantity] + Quantities(sizes[1..])
  }

  /** The id of the stored food: the API id, or the name with spaces turned
      into underscores and lower-cased when the API id is empty. */
  function FoodIdFor(data: FoodData): (r: string)
    ensures data.foodId != "" ==> r == data.foodId
    ensures data.foodId == "" ==> (|r| == |data.name| &&
      forall i :: 0 <= i < |r| ==> r[i] == (if data.name[i] == ' ' then '_' else ToLowerAscii(data.name[i])))
  {
    if data.foodId != "" then data.foodId else Lowercase(ReplaceSpaces(data.name))
  }

  /** `FoodData.toFood()`. */
  function ToFood(data: FoodData): (f: Food)
    ensures f.id == FoodIdFor(data) && f.name == data.name
    ensures f.calories == Trunc(data.nutrients.calories)
    ensures f.protein == data.nutrients.protein && f.carbs == data.nutrients.carbs &&
            f.fat == data.nutrients.fat && f.fiber == data.nutrients.fiber && f.sugar == data.nutrients.sugar
    ensures f.servingSize == 100.0 && f.servingUnit == "g" && f.imageUrl == data.image
    ensures data.servingSizes.Some? ==> f.servingSizeOptions == Quantities(data.servingSizes.value)
    ensures data.servingSizes.None? ==> f.servingSizeOptions == [100.0]
    ensures f.apiId == Some(data.foodId) && !f.isSynced && !f.favorite && f.lastUsed == 0
  {
    Food(FoodIdFor(data), data.name, Trunc(data.nutrients.calories),
         data.nutrients.protein, data.nutrients.carbs, data.nutrients.fat,
         data.nutrients.fiber, data.nutrients.sugar,
         100.0, "g", data.image, false, 0,
         if data.servingSizes.Some? then Quantities(data.servingSizes.value) else [100.0],
         Some(data.foodId), false)
  }

  /** Two hits without an API id whose names differ only in ASCII case or
      by spaces versus underscores get the same stored id, so the second
      replaces the first. */
  lemma NameDerivedIdsCollide(n: Nutrients)
    ensures ToFood(FoodData("", "Ab c", n, None, None)).id == "ab_c"
    ensures ToFood(FoodData("", "ab_c", n, None, None)).id == "ab_c"
  {
    var upper := Lowercase(ReplaceSpaces("Ab c"));
    var lower := Lowercase(ReplaceSpaces("ab_c"));
    assert upper[0] == 'a' && upper[1] == 'b' && upper[2] == '_' && upper[3] == 'c';
    assert lower[0] == 'a' && lower[1] == 'b' && lower[2] == '_' && lower[3] == 'c';
    assert upper == "ab_c";
    assert lower == "ab_c";
  }

  /** Calories are truncated toward zero, never rounded up, and clamped to
      the largest `Int`. */
  lemma CaloriesTruncated(data: FoodData)
    requires data.nutrients.calories >= 0.0
    ensures var c := ToFood(data).calories;
      var x := data.nutrients.calories;
      0 <= c <= MaxInt && c as real <= x &&
      (x < (MaxInt + 1) as real ==> x < c as real + 1.0) &&
      ((MaxInt + 1) as real <= x ==> c == MaxInt)
  {
  }
}
