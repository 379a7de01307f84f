/** The recipe editor's state: the selected recipe, the temporary
    ingredient list built while creating or editing a recipe, the search
    query and the last message. Each launched coroutine body is one
    sequential method; database errors on these paths are not modelled. */
module RecipeViewModel {
  import opened Common
  import opened Entities
  import opened Queries
  import opened FoodStore
  import opened RecipeStore

  const FoodMissing: string := "Aliment introuvable"
  const RecipeSaved: string := "Recette enregistrée avec succès"
  const RecipeDeleted: string := "Recette supprimée avec succès"
  const RecipeMissing: string := "Recette introuvable"

  /** An ingredient shown with its food. */
  datatype IngredientWithFood = IngredientWithFood(ingredient: RecipeIngredient, food: Food)

  /** `map { it.ingredient }`. */
  function IngredientsOf(temp: seq<IngredientWithFood>): (r: seq<RecipeIngredient>)
    ensures |r| == |temp| && forall i :: 0 <= i < |temp| ==> r[i] == temp[i].ingredient
  {
    if temp == [] then [] else [temp[0].ingredient] + IngredientsOf(temp[1..])
  }

  /** The ingredients whose food exists, each paired with it, in order. */
  function WithFoods(list: seq<RecipeIngredient>, foods: map<string, Food>): (r: seq<IngredientWithFood>)
    ensures |r| <= |list|
    ensures forall j :: 0 <= j < |r| ==> r[j].ingredient.foodId in foods && r[j].food == foods[r[j].ingredient.foodId]
    ensures IsSubsequence(IngredientsOf(r), list)
  {
    if list == [] then []
    else
      var rest := WithFoods(list[1..], foods);
      if list[0].foodId in foods then
        var r := [IngredientWithFood(list[0], foods[list[0].foodId])] + rest;
        assert IngredientsOf(r)[1..] == IngredientsOf(rest);
        r
      else
        SubsequenceOfTail(IngredientsOf(rest), list);
        rest
  }

  /** No ingredient whose food exists is lost. */
  lemma {:induction false} WithFoodsKeepsKnownFoods(list: seq<RecipeIngredient>, foods: map<string, Food>, i: int)
    requires 0 <= i < |list| && list[i].foodId in foods
    ensures IngredientWithFood(list[i], foods[list[i].foodId]) in WithFoods(list, foods)
  {
    if i > 0 {
      WithFoodsKeepsKnownFoods(list[1..], foods, i - 1);
    }
  }

  /** The `for` loop of `loadRecipeIngredientsForEdit`. */
  method PairWithFoods(list: seq<RecipeIngredient>, foods: map<string, Food>) returns (paired: seq<IngredientWithFood>)
    ensures paired == WithFoods(list, foods)
  {
    paired := [];
    var n := |list|;
    while n > 0
      invariant 0 <= n <= |list|
      invariant paired == WithFoods(list[n..], foods)
    {
      n := n - 1;
      assert list[n..][1..] == list[n + 1..];
      if list[n].foodId in foods {
        paired := [IngredientWithFood(list[n], foods[list[n].foodId])] + paired;
      }
    }
    assert list[0..] == list;
  }

  /** Every ingredient stamped with `recipeId`. */
  function Restamp(list: seq<RecipeIngredient>, recipeId: string): (r: seq<RecipeIngredient>)
    ensures |r| == |list|
    ensures forall j :: 0 <= j < |list| ==> r[j] == list[j].(recipeId := recipeId)
  {
    seq(|list|, j requires 0 <= j < |list| => list[j].(recipeId := recipeId))
  }

  /** The record `saveRecipe` builds; the defaults of the entity fill the
      fields the screen does not edit (no image, not a favourite, created
      now). */
  function SavedRecipe(id: string, name: string, description: string, instructions: string,
                       prepTime: int, cookTime: int, servings: int, tags: seq<string>, now: int): Recipe
  {
    Recipe(id, name, description, instructions, prepTime, cookTime, servings, None, false, tags, now, now, false)
  }

  class RecipeEditor {
    const recipeTable: RecipeTable
    const foodTable: FoodTable
    var searchQuery: string
    var message: Option<string>
    var selectedRecipeId: Option<string>
    var tempIngredients: seq<IngredientWithFood>

    ghost predicate Valid()
      reads this, recipeTable, foodTable
    {
      recipeTable.Valid() && foodTable.Valid()
    }

    constructor(recipeTable: RecipeTable, foodTable: FoodTable)
      requires recipeTable.Valid() && foodTable.Valid()
      ensures Valid() && this.recipeTable == recipeTable && this.foodTable == foodTable
      ensures searchQuery == "" && message.None? && selectedRecipeId.None? && tempIngredients == []
    {
      this.recipeTable := recipeTable;
      this.foodTable := foodTable;
      searchQuery := "";
      message := None;
      selectedRecipeId := None;
      tempIngredients := [];
    }

    /** `searchRecipes`: only the query is stored. */
    method SearchRecipes(query: string)
      modifies this
      ensures searchQuery == query
      ensures message == old(message) && selectedRecipeId == old(selectedRecipeId)
      ensures tempIngredients == old(tempIngredients)
    {
      searchQuery := query;
    }

    method ClearMessage()
      modifies this
      ensures message.None?
      ensures searchQuery == old(searchQuery) && selectedRecipeId == old(selectedRecipeId)
      ensures tempIngredients == old(tempIngredients)
    {
      message := None;
    }

    method SelectRecipe(recipeId: string)
      modifies this
      ensures selectedRecipeId == Some(recipeId)
      ensures searchQuery == old(searchQuery) && message == old(message)
      ensures tempIngredients == old(tempIngredients)
    {
      selectedRecipeId := Some(recipeId);
    }

    /** `clearSelectedRecipe`: no selection and no temporary ingredients. */
    method ClearSelectedRecipe()
      modifies this
      ensures selectedRecipeId.None? && tempIngredients == []
      ensures searchQuery == old(searchQuery) && message == old(message)
    {
      selectedRecipeId := None;
      tempIngredients := [];
    }

    method ToggleFavorite(recipeId: string, isFavorite: bool)
      requires Valid()
      modifies recipeTable
      ensures Valid() && recipeTable.ingredients == old(recipeTable.ingredients)
      ensures recipeTable.recipes.Keys == old(recipeTable.recipes).Keys
      ensures recipeId in recipeTable.recipes ==>
                recipeTable.recipes[recipeId] == old(recipeTable.recipes)[recipeId].(favorite := isFavorite)
      ensures forall k :: k in recipeTable.recipes && k != recipeId ==> recipeTable.recipes[k] == old(recipeTable.recipes)[k]
    {
      recipeTable.ToggleFavorite(recipeId, isFavorite);
    }

    /** `addTempIngredient`: one ingredient appended at the end, stamped with
        the selected recipe's id or "" when none is selected; a missing food
        leaves the list alone and sets the message. */
    method AddTempIngredient(foodId: string, quantity: real, unit: string, freshId: string)
      requires Valid()
      modifies this
      ensures Valid()
      ensures searchQuery == old(searchQuery) && selectedRecipeId == old(selectedRecipeId)
      ensures foodId in foodTable.foods ==>
                message == old(message) &&
                tempIngredients == old(tempIngredients) +
                  [IngredientWithFood(RecipeIngredient(freshId, if selectedRecipeId.Some? then selectedRecipeId.value else "",
                                                       foodId, quantity, unit),
                                      foodTable.foods[foodId])]
      ensures foodId !in foodTable.foods ==> message == Some(FoodMissing) && tempIngredients == old(tempIngredients)
    {
      var food := foodTable.FoodById(foodId);
      if food.Some? {
        var recipeId := if selectedRecipeId.Some? then selectedRecipeId.value else "";
        var ingredient := RecipeIngredient(freshId, recipeId, foodId, quantity, unit);
        tempIngredients := tempIngredients + [IngredientWithFood(ingredient, food.value)];
      } else {
        message := Some(FoodMissing);
      }
    }

    /** `removeTempIngredient`: removes the element at an in-range index,
        otherwise nothing. */
    method RemoveTempIngredient(index: int)
      modifies this
      ensures 0 <= index < |old(tempIngredients)| ==>
                tempIngredients == old(tempIngredients)[..index] + old(tempIngredients)[index + 1..]
      ensures !(0 <= index < |old(tempIngredients)|) ==> tempIngredients == old(tempIngredients)
      ensures searchQuery == old(searchQuery) && message == old(message) && selectedRecipeId == old(selectedRecipeId)
    {
      if 0 <= index < |tempIngredients| {
        tempIngredients := tempIngredients[..index] + tempIngredients[index + 1..];
      }
    }

    /** `saveRecipe`: the selected id or a fresh one; the temporary
        ingredients are saved as they are, whatever recipe id they carry;
        then the editor is cleared. */
    method SaveRecipe(name: string, description: string, instructions: string, prepTime: int, cookTime: int,
                      servings: int, tags: seq<string>, freshId: string, now: int)
      requires Valid()
      modifies this, recipeTable
      ensures Valid()
      ensures var id := if old(selectedRecipeId).Some? then old(selectedRecipeId).value else freshId;
        recipeTable.recipes == old(recipeTable.recipes)[id := SavedRecipe(id, name, description, instructions,
                                                                          prepTime, cookTime, servings, tags, now)] &&
        recipeTable.ingredients == UpsertAll(WithoutIngredientsOf(old(recipeTable.ingredients), id),
                                             IngredientsOf(old(tempIngredients)), IngredientKey)
      ensures message == Some(RecipeSaved) && selectedRecipeId.None? && tempIngredients == []
      ensures searchQuery == old(searchQuery)
    {
      var recipeId := if selectedRecipeId.Some? then selectedRecipeId.value else freshId;
      var recipe := SavedRecipe(recipeId, name, description, instructions, prepTime, cookTime, servings, tags, now);
      recipeTable.InsertRecipe(recipe, IngredientsOf(tempIngredients));
      message := Some(RecipeSaved);
      ClearSelectedRecipe();
    }

    /** `saveRecipe` as evidently intended: every temporary ingredient is
        stamped with the id the recipe is saved under. */
    method SaveRecipeRestamped(name: string, description: string, instructions: string, prepTime: int, cookTime: int,
                               servings: int, tags: seq<string>, freshId: string, now: int)
      requires Valid()
      modifies this, recipeTable
      ensures Valid()
      ensures var id := if old(selectedRecipeId).Some? then old(selectedRecipeId).value else freshId;
        recipeTable.recipes == old(recipeTable.recipes)[id := SavedRecipe(id, name, description, instructions,
                                                                          prepTime, cookTime, servings, tags, now)] &&
        recipeTable.ingredients == UpsertAll(WithoutIngredientsOf(old(recipeTable.ingredients), id),
                                             Restamp(IngredientsOf(old(tempIngredients)), id), IngredientKey)
      ensures message == Some(RecipeSaved) && selectedRecipeId.None? && tempIngredients == []
      ensures searchQuery == old(searchQuery)
    {
      var recipeId := if selectedRecipeId.Some? then selectedRecipeId.value else freshId;
      var recipe := SavedRecipe(recipeId, name, description, instructions, prepTime, cookTime, servings, tags, now);
      recipeTable.InsertRecipe(recipe, Restamp(IngredientsOf(tempIngredients), recipeId));
      message := Some(RecipeSaved);
      ClearSelectedRecipe();
    }

    /** `loadRecipeIngredientsForEdit`: the recipe's ingredients whose food
        exists become the temporary list; a missing recipe changes nothing. */
    method LoadRecipeIngredientsForEdit(recipeId: string)
      requires Valid()
      modifies this
      ensures Valid() && unchanged(recipeTable) && unchanged(foodTable)
      ensures searchQuery == old(searchQuery) && message == old(message) && selectedRecipeId == old(selectedRecipeId)
      ensures recipeId !in recipeTable.recipes ==> tempIngredients == old(tempIngredients)
      ensures recipeId in recipeTable.recipes ==>
                exists list :: (forall i :: i in list <==> i in recipeTable.ingredients.Values && i.recipeId == recipeId) &&
                               NoDuplicates(list) && tempIngredients == WithFoods(list, foodTable.foods)
    {
      var found := recipeTable.GetRecipeWithIngredients(recipeId);
      if found.Some? {
        tempIngredients := PairWithFoods(found.value.ingredients, foodTable.foods);
      }
    }

    /** `deleteRecipe`: the recipe and its ingredients; a missing recipe
        only sets the message. */
    method DeleteRecipe(recipeId: string)
      requires Valid()
      modifies this, recipeTable
      ensures Valid()
      ensures searchQuery == old(searchQuery) && selectedRecipeId == old(selectedRecipeId)
      ensures tempIngredients == old(tempIngredients)
      ensures recipeId in old(recipeTable.recipes) ==>
                message == Some(RecipeDeleted) && recipeTable.recipes == old(recipeTable.recipes) - {recipeId} &&
                recipeTable.ingredients == WithoutIngredientsOf(old(recipeTable.ingredients), recipeId)
      ensures recipeId !in old(recipeTable.recipes) ==>
                message == Some(RecipeMissing) && recipeTable.recipes == old(recipeTable.recipes) &&
                recipeTable.ingredients == old(recipeTable.ingredients)
    {
      var recipe := recipeTable.RecipeById(recipeId);
      if recipe.Some? {
        recipeTable.DeleteRecipe(recipe.value);
        message := Some(RecipeDeleted);
      } else {
        message := Some(RecipeMissing);
      }
    }
  }

  /** With restamping, the saved recipe owns exactly the listed ingredients. */
  lemma RestampedSaveKeepsIngredients(table: map<string, RecipeIngredient>, recipeId: string,
                                      list: seq<RecipeIngredient>)
    requires DistinctIds(list)
    ensures var r := UpsertAll(WithoutIngredientsOf(table, recipeId), Restamp(list, recipeId), IngredientKey);
      forall i :: i in r.Values && i.recipeId == recipeId <==> i in Restamp(list, recipeId)
  {
    var stamped := Restamp(list, recipeId);
    assert DistinctIds(stamped) by {
      forall j, k | 0 <= j < k < |stamped|
        ensures stamped[j].id != stamped[k].id
      {
        assert stamped[j].id == list[j].id && stamped[k].id == list[k].id;
      }
    }
    InsertRecipeReplacesIngredients(table, recipeId, stamped);
  }

  /** Saving an edited recipe rewrites it with the entity's defaults, so a
      favourite stops being one and its creation time becomes now. */
  lemma SaveClearsFavorite(old_: Recipe, name: string, description: string, instructions: string,
                           prepTime: int, cookTime: int, servings: int, tags: seq<string>, now: int)
    requires old_.favorite
    ensures var saved := SavedRecipe(old_.id, name, description, instructions, prepTime, cookTime, servings, tags, now);
      !saved.favorite && saved.createdAt == now && saved.id == old_.id
  {
  }
}
