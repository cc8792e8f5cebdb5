/**
 The recipe side of the data model: tags, ingredients, recipes, the
 per-recipe ingredient quantities, shopping-cart entries and favorites, with
 the field constraints the models declare and their default orderings.
 Rows refer to each other by primary key; the cascades of the foreign keys
 are carried out by the store.
 */
module Recipes {
  import opened Seqs
  import opened Users

  datatype Tag = Tag(id: Id, name: string, color: string, slug: string)

  datatype Ingredient = Ingredient(id: Id, name: string, measurementUnit: string)

  /**
   A recipe. `tags` is the many-to-many relation to `Tag` (a set of tag ids);
   `pub` is the creation timestamp, set once by the database clock.
   The image is not part of the model.
   */
  datatype Recipe = Recipe(id: Id, author: Id, name: string, text: string, cookingTime: int, tags: set<Id>, pub: int)

  /** The quantity of one ingredient in one recipe (a `PositiveIntegerField`, hence `nat`). */
  datatype RecipeIngredient = RecipeIngredient(recipe: Id, ingredient: Id, amount: nat)

  /** A `ShoppingCart` row: `user` put `recipe` in their cart. */
  datatype CartEntry = CartEntry(user: Id, recipe: Id)

  /** A `Favorite` row: `user` bookmarked `recipe`. */
  datatype Favorite = Favorite(user: Id, recipe: Id)

  /** The bound of the `MinValueValidator` on `Recipe.cooking_time`. */
  const MIN_COOKING_TIME := 1

  function TagIds(tags: seq<Tag>): set<Id>
  {
    set t | t in tags :: t.id
  }

  function IngredientIds(ingredients: seq<Ingredient>): set<Id>
  {
    set i | i in ingredients :: i.id
  }

  function RecipeIds(recipes: seq<Recipe>): set<Id>
  {
    set r | r in recipes :: r.id
  }

  lemma RecipeIdsWithout(recipes: seq<Recipe>, keep: Recipe -> bool, id: Id)
    requires forall x :: x in recipes ==> keep(x) == (x.id != id)
    ensures RecipeIds(Filter(recipes, keep)) == RecipeIds(recipes) - {id}
  {
    forall k | k in RecipeIds(recipes) - {id} ensures k in RecipeIds(Filter(recipes, keep)) {
      var x :| x in recipes && x.id == k;
      assert x in Filter(recipes, keep);
    }
  }

  lemma RecipeIdsAppend(recipes: seq<Recipe>, x: Recipe)
    ensures RecipeIds(recipes + [x]) == RecipeIds(recipes) + {x.id}
  {
    assert forall y :: y in recipes + [x] <==> y in recipes || y == x;
  }

  lemma IngredientIdsWithout(ingredients: seq<Ingredient>, keep: Ingredient -> bool, id: Id)
    requires forall i :: i in ingredients ==> keep(i) == (i.id != id)
    ensures IngredientIds(Filter(ingredients, keep)) == IngredientIds(ingredients) - {id}
  {
    forall k | k in IngredientIds(ingredients) - {id} ensures k in IngredientIds(Filter(ingredients, keep)) {
      var i :| i in ingredients && i.id == k;
      assert i in Filter(ingredients, keep);
    }
  }

  function TagKey(t: Tag): Id
  {
    t.id
  }

  function SlugOf(t: Tag): string
  {
    t.slug
  }

  function IngredientKey(i: Ingredient): Id
  {
    i.id
  }

  function RecipeKey(x: Recipe): Id
  {
    x.id
  }

  /** The publication time, the key of the recipe ordering. */
  function Pub(x: Recipe): int
  {
    x.pub
  }

  /** Primary key and `slug` (declared `unique=True`): no two rows of the table share one. */
  predicate TagsUnique(tags: seq<Tag>)
  {
    UniqueBy(tags, TagKey) && UniqueBy(tags, SlugOf)
  }

  /** No two ingredient rows share a primary key. */
  predicate IngredientsUnique(ingredients: seq<Ingredient>)
  {
    UniqueBy(ingredients, IngredientKey)
  }

  /** No two recipe rows share a primary key. */
  predicate RecipesUnique(recipes: seq<Recipe>)
  {
    UniqueBy(recipes, RecipeKey)
  }

  /** With unique primary keys, looking a stored recipe up by its id finds that very row. */
  lemma RecipeByIdFinds(recipes: seq<Recipe>, x: Recipe)
    requires RecipesUnique(recipes) && x in recipes
    ensures RecipeById(recipes, x.id) == Some(x)
  {
    assert x.id in RecipeIds(recipes);
    UniqueByMembers(recipes, RecipeKey);
  }

  /** With unique primary keys, the join of a recipe row finds the very ingredient row it names. */
  lemma IngredientByIdFinds(ingredients: seq<Ingredient>, i: Ingredient)
    requires IngredientsUnique(ingredients) && i in ingredients
    ensures IngredientById(ingredients, i.id) == Some(i)
  {
    assert i.id in IngredientIds(ingredients);
    UniqueByMembers(ingredients, IngredientKey);
  }

  /** `validators=[MinValueValidator(1)]` on `cooking_time`. */
  predicate CookingTimeValid(r: Recipe)
  {
    r.cookingTime >= MIN_COOKING_TIME
  }

  /** `get_object_or_404(Recipe, pk=...)`: the recipe with that primary key, if any. */
  function RecipeById(recipes: seq<Recipe>, id: Id): (r: Option<Recipe>)
    ensures r.Some? <==> id in RecipeIds(recipes)
    ensures r.Some? ==> r.value in recipes && r.value.id == id
  {
    if recipes == [] then None
    else if recipes[0].id == id then Some(recipes[0])
    else
      var r := RecipeById(recipes[1..], id);
      assert recipes == [recipes[0]] + recipes[1..];
      r
  }

  /** The ingredient with that primary key, if any (the join of a `RecipeIngredient` row). */
  function IngredientById(ingredients: seq<Ingredient>, id: Id): (r: Option<Ingredient>)
    ensures r.Some? <==> id in IngredientIds(ingredients)
    ensures r.Some? ==> r.value in ingredients && r.value.id == id
  {
    if ingredients == [] then None
    else if ingredients[0].id == id then Some(ingredients[0])
    else
      var r := IngredientById(ingredients[1..], id);
      assert ingredients == [ingredients[0]] + ingredients[1..];
      r
  }

  /** `Recipe.Meta.ordering = ['-pub']`: the recipe listing, newest first. */
  function NewestFirst(recipes: seq<Recipe>): (r: seq<Recipe>)
    ensures multiset(r) == multiset(recipes)
    ensures DescendingBy(r, Pub)
  {
    SortDescBy(recipes, Pub)
  }

  /** A unique primary key rules out a repeated recipe row. */
  lemma RecipesUniqueNoDup(recipes: seq<Recipe>)
    requires RecipesUnique(recipes)
    ensures NoDup(recipes)
  {
    UniqueByMembers(recipes, RecipeKey);
  }
}
