/** The recipe and recipe-ingredient tables and their repository: saving a
    recipe replaces its ingredients, deleting it cascades to them, and the
    favourite flag and sync helpers touch one field. */
module RecipeStore {
  import opened Common
  import opened Entities
  import opened Queries

  function IngredientKey(i: RecipeIngredient): string { i.id }

  /** `ORDER BY name ASC`. */
  predicate RecipeNameLe(a: Recipe, b: Recipe) { StrLessEq(a.name, b.name) }

  lemma RecipeNameLeOrders()
    ensures TotalPreorder(RecipeNameLe)
  {
    forall a: Recipe, b: Recipe ensures RecipeNameLe(a, b) || RecipeNameLe(b, a) {
      StrLessEqTotal(a.name, b.name);
    }
    forall a: Recipe, b: Recipe, c: Recipe | RecipeNameLe(a, b) && RecipeNameLe(b, c)
      ensures RecipeNameLe(a, c)
    {
      StrLessEqTransitive(a.name, b.name, c.name);
    }
  }

  predicate AnyRecipe(r: Recipe) { true }
  predicate IsFavoriteRecipe(r: Recipe) { r.favorite }
  predicate IsUnsyncedRecipe(r: Recipe) { !r.isSynced }

  function RecipeNameMatches(query: string): Recipe -> bool
  {
    (r: Recipe) => Like(r.name, "%" + query + "%")
  }

  function BelongsTo(recipeId: string): RecipeIngredient -> bool
  {
    (i: RecipeIngredient) => i.recipeId == recipeId
  }

  /** `DELETE FROM recipe_ingredients WHERE recipeId = :recipeId`. */
  function WithoutIngredientsOf(table: map<string, RecipeIngredient>, recipeId: string)
    : (r: map<string, RecipeIngredient>)
    ensures forall k :: k in r <==> k in table && table[k].recipeId != recipeId
    ensures forall k :: k in r ==> r[k] == table[k]
  {
    map k | k in table && table[k].recipeId != recipeId :: table[k]
  }

  /** `UPDATE recipes SET isSynced = 1 WHERE id IN (ids)`. */
  function MarkRecipesSynced(table: map<string, Recipe>, ids: seq<string>): (r: map<string, Recipe>)
    ensures r.Keys == table.Keys
    ensures forall k :: k in table ==> r[k] == (if table[k].id in ids then table[k].(isSynced := true) else table[k])
  {
    map k | k in table :: if table[k].id in ids then table[k].(isSynced := true) else table[k]
  }

  /** A recipe with exactly the ingredients whose recipeId is its id. */
  datatype RecipeWithIngredients = RecipeWithIngredients(recipe: Recipe, ingredients: seq<RecipeIngredient>)

  function RecipesOf(list: seq<RecipeWithIngredients>): (r: seq<Recipe>)
    ensures |r| == |list|
    ensures forall j :: 0 <= j < |list| ==> r[j] == list[j].recipe
  {
    if list == [] then [] else [list[0].recipe] + RecipesOf(list[1..])
  }

  predicate DistinctIds(list: seq<RecipeIngredient>)
  {
    forall i, j :: 0 <= i < j < |list| ==> list[i].id != list[j].id
  }

  class RecipeTable {
    var recipes: map<string, Recipe>
    var ingredients: map<string, RecipeIngredient>

    ghost predicate Valid()
      reads this
    {
      (forall k :: k in recipes ==> recipes[k].id == k) &&
      (forall k :: k in ingredients ==> ingredients[k].id == k)
    }

    constructor()
      ensures recipes == map[] && ingredients == map[] && Valid()
    {
      recipes := map[];
      ingredients := map[];
    }

    /** `getRecipeById`. */
    function RecipeById(id: string): (r: Option<Recipe>)
      reads this
      requires Valid()
      ensures r.Some? <==> id in recipes
      ensures r.Some? ==> r.value == recipes[id] && r.value.id == id
    {
      if id in recipes then Some(recipes[id]) else None
    }

    /** `insertIngredients`: REPLACE row after row. */
    method InsertIngredients(list: seq<RecipeIngredient>)
      requires Valid()
      modifies this
      ensures Valid() && recipes == old(recipes)
      ensures ingredients == UpsertAll(old(ingredients), list, IngredientKey)
    {
      var i := 0;
      while i < |list|
        invariant 0 <= i <= |list|
        invariant Valid() && recipes == old(recipes)
        invariant ingredients == UpsertAll(old(ingredients), list[..i], IngredientKey)
      {
        assert list[..i + 1][..i] == list[..i];
        ingredients := ingredients[list[i].id := list[i]];
        i := i + 1;
      }
      assert list[..|list|] == list;
    }

    /** `insertRecipe`: upsert the recipe, delete every ingredient of its
        id, then upsert the given ingredients whatever recipeId they carry. */
    method InsertRecipe(recipe: Recipe, list: seq<RecipeIngredient>)
      requires Valid()
      modifies this
      ensures Valid()
      ensures recipes == old(recipes)[recipe.id := recipe]
      ensures ingredients == UpsertAll(WithoutIngredientsOf(old(ingredients), recipe.id), list, IngredientKey)
    {
      recipes := recipes[recipe.id := recipe];
      ingredients := WithoutIngredientsOf(ingredients, recipe.id);
      InsertIngredients(list);
    }

    /** `@Update` of a recipe: only an existing row is replaced. */
    method UpdateRecipe(recipe: Recipe)
      requires Valid()
      modifies this
      ensures Valid() && ingredients == old(ingredients)
      ensures recipe.id in old(recipes) ==> recipes == old(recipes)[recipe.id := recipe]
      ensures recipe.id !in old(recipes) ==> recipes == old(recipes)
    {
      if recipe.id in recipes {
        recipes := recipes[recipe.id := recipe];
      }
    }

    /** `addIngredientToRecipe`: REPLACE on the ingredient id. */
    method AddIngredientToRecipe(ingredient: RecipeIngredient)
      requires Valid()
      modifies this
      ensures Valid() && recipes == old(recipes)
      ensures ingredients == old(ingredients)[ingredient.id := ingredient]
    {
      ingredients := ingredients[ingredient.id := ingredient];
    }

    /** `updateIngredient`: only an existing row is replaced. */
    method UpdateIngredient(ingredient: RecipeIngredient)
      requires Valid()
      modifies this
      ensures Valid() && recipes == old(recipes)
      ensures ingredient.id in old(ingredients) ==> ingredients == old(ingredients)[ingredient.id := ingredient]
      ensures ingredient.id !in old(ingredients) ==> ingredients == old(ingredients)
    {
      if ingredient.id in ingredients {
        ingredients := ingredients[ingredient.id := ingredient];
      }
    }

    /** `removeIngredientFromRecipe`: by primary key. */
    method RemoveIngredientFromRecipe(ingredient: RecipeIngredient)
      requires Valid()
      modifies this
      ensures Valid() && recipes == old(recipes)
      ensures ingredients == old(ingredients) - {ingredient.id}
    {
      ingredients := ingredients - {ingredient.id};
    }

    /** `deleteRecipe`: its ingredients first, then the recipe row. */
    method DeleteRecipe(recipe: Recipe)
      requires Valid()
      modifies this
      ensures Valid()
      ensures recipes == old(recipes) - {recipe.id}
      ensures ingredients == WithoutIngredientsOf(old(ingredients), recipe.id)
    {
      ingredients := WithoutIngredientsOf(ingredients, recipe.id);
      recipes := recipes - {recipe.id};
    }

    /** `toggleFavorite`: only that recipe's favourite field. */
    method ToggleFavorite(recipeId: string, isFavorite: bool)
      requires Valid()
      modifies this
      ensures Valid() && ingredients == old(ingredients)
      ensures recipes.Keys == old(recipes).Keys
      ensures recipeId in recipes ==> recipes[recipeId] == old(recipes)[recipeId].(favorite := isFavorite)
      ensures forall k :: k in recipes && k != recipeId ==> recipes[k] == old(recipes)[k]
    {
      if recipeId in recipes {
        recipes := recipes[recipeId := recipes[recipeId].(favorite := isFavorite)];
      }
    }

    /** `getAllRecipes`. */
    method GetAllRecipes() returns (r: seq<Recipe>)
      ensures forall x :: x in r <==> x in recipes.Values
      ensures NoDuplicates(r) && SortedBy(r, RecipeNameLe)
    {
      RecipeNameLeOrders();
      r := SelectSorted(recipes, AnyRecipe, RecipeNameLe);
    }

    /** `getFavoriteRecipes`. */
    method GetFavoriteRecipes() returns (r: seq<Recipe>)
      ensures forall x :: x in r <==> x in recipes.Values && x.favorite
      ensures NoDuplicates(r) && SortedBy(r, RecipeNameLe)
    {
      RecipeNameLeOrders();
      r := SelectSorted(recipes, IsFavoriteRecipe, RecipeNameLe);
    }

    /** `searchRecipes`: no blank-query shortcut here; "" matches every name. */
    method SearchRecipes(query: string) returns (r: seq<Recipe>)
      ensures forall x :: x in r <==> x in recipes.Values && Like(x.name, "%" + query + "%")
      ensures NoDuplicates(r) && SortedBy(r, RecipeNameLe)
    {
      RecipeNameLeOrders();
      r := SelectSorted(recipes, RecipeNameMatches(query), RecipeNameLe);
    }

    /** `getIngredientsForRecipe`. */
    method GetIngredientsForRecipe(recipeId: string) returns (r: seq<RecipeIngredient>)
      ensures forall i :: i in r <==> i in ingredients.Values && i.recipeId == recipeId
      ensures NoDuplicates(r)
    {
      r := Select(ingredients, BelongsTo(recipeId));
    }

    /** `getRecipeWithIngredients`: nothing for an unknown id. */
    method GetRecipeWithIngredients(recipeId: string) returns (r: Option<RecipeWithIngredients>)
      requires Valid()
      ensures r.None? <==> recipeId !in recipes
      ensures r.Some? ==> (r.value.recipe == recipes[recipeId] &&
        (forall i :: i in r.value.ingredients <==> i in ingredients.Values && i.recipeId == recipeId) &&
        NoDuplicates(r.value.ingredients))
    {
      if recipeId in recipes {
        var list := GetIngredientsForRecipe(recipeId);
        r := Some(RecipeWithIngredients(recipes[recipeId], list));
      } else {
        r := None;
      }
    }

    /** `getAllRecipesWithIngredients`: every recipe once, each with its
        ingredients; no order. */
    method GetAllRecipesWithIngredients() returns (r: seq<RecipeWithIngredients>)
      ensures forall x :: x in RecipesOf(r) <==> x in recipes.Values
      ensures NoDuplicates(RecipesOf(r))
      ensures forall j :: 0 <= j < |r| ==>
        forall i :: i in r[j].ingredients <==> i in ingredients.Values && i.recipeId == r[j].recipe.id
      ensures forall j :: 0 <= j < |r| ==> NoDuplicates(r[j].ingredients)
    {
      var remaining := recipes.Values;
      r := [];
      while remaining != {}
        invariant remaining <= recipes.Values
        invariant forall x :: x in RecipesOf(r) <==> x in recipes.Values - remaining
        invariant NoDuplicates(RecipesOf(r))
        invariant forall j :: 0 <= j < |r| ==>
          forall i :: i in r[j].ingredients <==> i in ingredients.Values && i.recipeId == r[j].recipe.id
        invariant forall j :: 0 <= j < |r| ==> NoDuplicates(r[j].ingredients)
        decreases |remaining|
      {
        var x :| x in remaining;
        remaining := remaining - {x};
        var list := GetIngredientsForRecipe(x.id);
        assert x !in RecipesOf(r);
        assert RecipesOf(r + [RecipeWithIngredients(x, list)]) == RecipesOf(r) + [x];
        r := r + [RecipeWithIngredients(x, list)];
      }
    }

    /** `getUnsyncedRecipes`. */
    method GetUnsyncedRecipes() returns (r: seq<Recipe>)
      ensures forall x :: x in r <==> x in recipes.Values && !x.isSynced
      ensures NoDuplicates(r)
    {
      r := Select(recipes, IsUnsyncedRecipe);
    }

    /** `markRecipesAsSynced`. */
    method MarkRecipesAsSynced(ids: seq<string>)
      requires Valid()
      modifies this
      ensures Valid() && ingredients == old(ingredients)
      ensures recipes == MarkRecipesSynced(old(recipes), ids)
    {
      recipes := MarkRecipesSynced(recipes, ids);
    }
  }

  /** After saving a recipe with ingredients of distinct ids, the stored
      ingredients of that recipe are exactly the listed ones that carry its
      id; every other stored ingredient is the listed one with its id, or
      else untouched. */
  lemma {:induction false} InsertRecipeReplacesIngredients(table: map<string, RecipeIngredient>, recipeId: string,
                                                           list: seq<RecipeIngredient>)
    requires DistinctIds(list)
    ensures var r := UpsertAll(WithoutIngredientsOf(table, recipeId), list, IngredientKey);
      (forall i :: i in r.Values && i.recipeId == recipeId <==> i in list && i.recipeId == recipeId) &&
      (forall k :: k in table && table[k].recipeId != recipeId && (forall j :: 0 <= j < |list| ==> list[j].id != k) ==>
         k in r && r[k] == table[k])
  {
    var base := WithoutIngredientsOf(table, recipeId);
    var r := UpsertAll(base, list, IngredientKey);
    UpsertAllLookup(base, list, IngredientKey);
    forall i | i in list
      ensures i.id in r && r[i.id] == i
    {
      var j :| 0 <= j < |list| && list[j] == i;
      LastIsOnly(list, j);
    }
    forall i | i in r.Values && i.recipeId == recipeId
      ensures i in list
    {
      var k :| k in r && r[k] == i;
      assert LastWithKey(list, k, IngredientKey).Some?;
    }
  }

  /** With distinct ids, the last row with a listed row's id is that row. */
  lemma LastIsOnly(list: seq<RecipeIngredient>, j: int)
    requires DistinctIds(list) && 0 <= j < |list|
    ensures LastWithKey(list, list[j].id, IngredientKey) == Some(list[j])
  {
    var last := LastWithKey(list, list[j].id, IngredientKey);
    var m :| 0 <= m < |list| && list[m] == last.value;
    assert m == j;
  }

  /** The new-recipe case of the recipe editor: ingredients collected before
      the recipe has an id carry recipeId "", so saving the recipe under a
      fresh id leaves it with no ingredients at all. */
  lemma NewRecipeGetsNoIngredients(table: map<string, RecipeIngredient>, recipeId: string,
                                   list: seq<RecipeIngredient>)
    requires DistinctIds(list) && recipeId != ""
    requires forall j :: 0 <= j < |list| ==> list[j].recipeId == ""
    ensures var r := UpsertAll(WithoutIngredientsOf(table, recipeId), list, IngredientKey);
      forall i :: i in r.Values ==> i.recipeId != recipeId
  {
    InsertRecipeReplacesIngredients(table, recipeId, list);
  }

  /** Deleting a recipe removes exactly its ingredients. */
  lemma DeleteRecipeCascade(table: map<string, RecipeIngredient>, recipeId: string)
    ensures forall i :: i in WithoutIngredientsOf(table, recipeId).Values <==> i in table.Values && i.recipeId != recipeId
  {
    var r := WithoutIngredientsOf(table, recipeId);
    forall i | i in table.Values && i.recipeId != recipeId
      ensures i in r.Values
    {
      var k :| k in table && table[k] == i;
      assert r[k] == i;
    }
  }
}
